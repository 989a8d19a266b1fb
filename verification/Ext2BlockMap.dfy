/** The four-level block map of an inode (fs/src/ext2/inode.rs:145-302). */
module Ext2BlockMap {
  import opened Arith
  import opened Bytes
  import opened Bitmap
  import opened Ext2Layout
  import opened Ext2Alloc
  import opened Ext2Inode

  // ---------------------------------------------------------------- paths

  /** Number of index blocks between slot `s` of i_block and the data: 0 for the twelve direct
      slots, then 1, 2 and 3. */
  function Depth(s: nat): nat {
    if s < 12 then 0 else s - 11
  }

  /** A place that holds a block pointer: a slot of i_block, then one index per index block.
      Index blocks have `p` pointers. */
  predicate IsPath(p: nat, path: seq<nat>) {
    && 1 <= |path| && path[0] < 15 && |path| <= 1 + Depth(path[0])
    && forall i :: 1 <= i < |path| ==> path[i] < p
  }

  predicate IsLeaf(path: seq<nat>) {
    |path| >= 1 && |path| == 1 + Depth(path[0])
  }

  function Parent(path: seq<nat>): seq<nat>
    requires |path| >= 1
  {
    path[..|path| - 1]
  }

  function Last(path: seq<nat>): nat
    requires |path| >= 1
  {
    path[|path| - 1]
  }

  function MaxBlocks(p: nat): nat {
    12 + p + Mul(p, p) + Mul(p, Mul(p, p))
  }

  /** Where logical block `n` has its pointer. */
  function PathOf(p: nat, n: nat): seq<nat>
    requires p > 0
  {
    MulPositive(p);
    if n < 12 then [n]
    else if n - 12 < p then [12, n - 12]
    else if n - 12 - p < Mul(p, p) then
      var m := n - 12 - p;
      [13, Div(m, p), Mod(m, p)]
    else
      var m := n - 12 - p - Mul(p, p);
      [14, Div(m, Mul(p, p)), Mod(Div(m, p), p), Mod(m, p)]
  }

  lemma MulPositive(p: nat)
    ensures p > 0 ==> Mul(p, p) > 0
  {
    if p > 0 { MulMono(1, p, p); }
  }

  /** Dividing by `p * p` is dividing by `p` twice. */
  lemma DivTwice(m: nat, p: nat)
    requires p > 0
    ensures Mul(p, p) > 0 && Div(m, Mul(p, p)) == Div(Div(m, p), p)
  {
    hide Mul, Div, Mod;
    MulPositive(p);
    var q, r := Div(m, p), Mod(m, p);
    var a, b := Div(q, p), Mod(q, p);
    DivMod(m, p);
    DivMod(q, p);
    MulAdd(Mul(a, p), b, p);
    MulAssoc(a, p, p);
    assert m == Mul(a, Mul(p, p)) + Mul(b, p) + r;
    MulAdd(b, 1, p);
    MulOne(p);
    MulMono(b + 1, p, p);
    DivModOf(a, Mul(p, p), Mul(b, p) + r);
  }

  lemma PathOfIsLeaf(p: nat, n: nat)
    requires p > 0 && n < MaxBlocks(p)
    ensures IsPath(p, PathOf(p, n)) && IsLeaf(PathOf(p, n))
  {
    hide Mul, Div, Mod;
    MulPositive(p);
    if n >= 12 + p {
      if n - 12 - p < Mul(p, p) {
        DivBelow(n - 12 - p, p, p);
      } else {
        var m := n - 12 - p - Mul(p, p);
        DivBelow(m, p, Mul(p, p));
      }
    }
  }

  /** Logical block number behind a leaf path. */
  function BlockOf(p: nat, path: seq<nat>): nat
    requires IsPath(p, path) && IsLeaf(path)
  {
    if path[0] < 12 then path[0]
    else if path[0] == 12 then 12 + path[1]
    else if path[0] == 13 then 12 + p + (Mul(path[1], p) + path[2])
    else 12 + p + Mul(p, p) + (Mul(Mul(path[1], p) + path[2], p) + path[3])
  }

  /** PathOf and BlockOf are inverse, so distinct logical blocks have distinct pointers. */
  lemma PathOfInverse(p: nat, n: nat)
    requires p > 0 && n < MaxBlocks(p)
    ensures IsPath(p, PathOf(p, n)) && IsLeaf(PathOf(p, n)) && BlockOf(p, PathOf(p, n)) == n
  {
    hide Mul, Div, Mod;
    PathOfIsLeaf(p, n);
    MulPositive(p);
    if n >= 12 + p {
      if n - 12 - p < Mul(p, p) {
        DivMod(n - 12 - p, p);
      } else {
        var m := n - 12 - p - Mul(p, p);
        DivTwice(m, p);
        DivMod(m, p);
        DivMod(Div(m, p), p);
      }
    }
  }

  lemma PathOfInjective(p: nat, n: nat, m: nat)
    requires p > 0 && n < MaxBlocks(p) && m < MaxBlocks(p) && PathOf(p, n) == PathOf(p, m)
    ensures n == m
  {
    PathOfInverse(p, n);
    PathOfInverse(p, m);
  }

  // ---------------------------------------------------------------- reading the map

  function IndexAt(b: Buf, i: nat): u32
    requires 4 * i + 4 <= |b|
  {
    U32At(b, 4 * i)
  }

  /** The pointer at `path`: 0 below a missing index block. */
  function PtrAt(disk: seq<Buf>, p: nat, s: Slots, path: seq<nat>): u32
    requires DiskShape(disk, 4 * p) && IsPath(p, path)
    decreases |path|
  {
    if |path| == 1 then s[path[0]]
    else
      var q := PtrAt(disk, p, s, Parent(path));
      if q == 0 then 0 else IndexAt(ReadBlk(disk, 4 * p, q as int), Last(path))
  }

  /** get_block. */
  function GetBlock(disk: seq<Buf>, p: nat, s: Slots, n: nat): Option<u32>
    requires p > 0 && DiskShape(disk, 4 * p) && n < MaxBlocks(p)
  {
    PathOfIsLeaf(p, n);
    var b := PtrAt(disk, p, s, PathOf(p, n));
    if b == 0 then None else Some(b)
  }

  // ---------------------------------------------------------------- well-formed maps

  /** Every pointer of inode `ino` leads to a block owned by exactly that place. */
  ghost predicate TreeOk(disk: seq<Buf>, p: nat, own: Ownership, ino: nat, s: Slots)
    requires DiskShape(disk, 4 * p)
  {
    forall path :: IsPath(p, path) && PtrAt(disk, p, s, path) != 0 ==>
      PtrAt(disk, p, s, path) as int < |disk| && Owns(own, PtrAt(disk, p, s, path) as int, OwnPtr(ino, path))
  }

  predicate OwnedBy(o: Owner, ino: nat) {
    o.OwnPtr? && o.ino == ino
  }

  /** The map of an inode only reads blocks the inode owns. */
  lemma {:induction false} PtrFrame(d: seq<Buf>, r: seq<Buf>, p: nat, own: Ownership, ino: nat, s: Slots,
      path: seq<nat>)
    requires DiskShape(d, 4 * p) && DiskShape(r, 4 * p) && |r| == |d| && IsPath(p, path)
    requires TreeOk(d, p, own, ino, s)
    requires forall b :: b in own && b < |d| && OwnedBy(own[b], ino) && own[b].path < path ==> r[b] == d[b]
    ensures PtrAt(r, p, s, path) == PtrAt(d, p, s, path)
    decreases |path|
  {
    if |path| > 1 {
      PtrFrame(d, r, p, own, ino, s, Parent(path));
    }
  }

  /** Storing pointer `b` at `path`, where none was, changes the pointer at `path` and no other:
      a new index block is zero-filled, and no other place shares the block that was patched. */
  ghost predicate Linked(d: seq<Buf>, s: Slots, r: seq<Buf>, t: Slots, p: nat, path: seq<nat>, b: u32)
    requires DiskShape(d, 4 * p) && DiskShape(r, 4 * p)
  {
    forall q :: IsPath(p, q) ==> PtrAt(r, p, t, q) == if q == path then b else PtrAt(d, p, s, q)
  }

  /** The volume and slots after storing `b` at `path`. */
  function Store(d: seq<Buf>, p: nat, s: Slots, path: seq<nat>, b: u32): (r: (seq<Buf>, Slots))
    requires DiskShape(d, 4 * p) && IsPath(p, path)
    ensures DiskShape(r.0, 4 * p) && |r.0| == |d|
  {
    if |path| == 1 then (d, s[path[0] := b])
    else
      var q := PtrAt(d, p, s, Parent(path)) as int;
      (WriteBlk(d, q, PutU32(ReadBlk(d, 4 * p, q), 4 * Last(path), b)), s)
  }

  lemma {:induction false} LinkAt(d: seq<Buf>, p: nat, own: Ownership, ino: nat, s: Slots, path: seq<nat>, b: u32,
                                  r: seq<Buf>, q: seq<nat>)
    requires DiskShape(d, 4 * p) && IsPath(p, path) && IsPath(p, q) && DiskShape(r, 4 * p)
    requires TreeOk(d, p, own, ino, s) && (PtrAt(d, p, s, path) == 0 || IsLeaf(path))
    requires |path| > 1 ==> PtrAt(d, p, s, Parent(path)) != 0
    requires b != 0 && b as int < |d| && b as int !in own
    requires |r| == |d| && (!IsLeaf(path) ==> r[b] == Zeros(4 * p))
    requires forall c :: 0 <= c < |d| && c != b as int ==> r[c] == Store(d, p, s, path, b).0[c]
    ensures PtrAt(r, p, Store(d, p, s, path, b).1, q) == if q == path then b else PtrAt(d, p, s, q)
    decreases |q|
  {
    hide IsPath, PutU32, IndexAt, U32At, Zeros, IsLeaf;
    ParentPath(p, path);
    ParentPath(p, q);
    if |q| > 1 {
      var up := Parent(q);
      LinkAt(d, p, own, ino, s, path, b, r, up);
      if up == path {
        ZeroIndex(4 * p, Last(q));
      } else {
        var m := PtrAt(d, p, s, up);
        if m != 0 {
          assert Owns(own, m as int, OwnPtr(ino, up));
          if |path| > 1 && up == Parent(path) {
            assert q == up + [Last(q)] && path == up + [Last(path)];
            PutIndexOther(d[m], Last(path), b, Last(q));
          }
        }
      }
    }
  }

  lemma ParentPath(p: nat, path: seq<nat>)
    requires IsPath(p, path)
    ensures |path| >= 1 && path[0] < 15
    ensures |path| > 1 ==> IsPath(p, Parent(path)) && !IsLeaf(Parent(path)) && Last(path) < p
  {
  }

  lemma ZeroIndex(n: nat, i: nat)
    requires 4 * i + 4 <= n
    ensures IndexAt(Zeros(n), i) == 0
  {
  }

  lemma PutIndexOther(b: Buf, i: nat, v: u32, j: nat)
    requires 4 * i + 4 <= |b| && 4 * j + 4 <= |b|
    ensures IndexAt(PutU32(b, 4 * i, v), j) == if j == i then v else IndexAt(b, j)
  {
  }

  // ---------------------------------------------------------------- set_block

  function PutBlk(fs: Fs, b: nat, data: Buf): (r: Fs)
    requires Shape(fs) && |data| == fs.sb.BlockSize()
    ensures Shape(r) && |r.disk| == |fs.disk| && r.sb == fs.sb && r.bgdt == fs.bgdt
  {
    fs.(disk := WriteBlk(fs.disk, b, data))
  }

  /** `alloc_block(..).unwrap_or(0)`. */
  function OrZero(o: Option<nat>): u32 {
    match o
    case None => 0
    case Some(b) => b % 0x1_0000_0000
  }

  /** A new index block: allocated, linked at `path` (in i_block, or in the index block `up` whose
      contents were read before the allocation), then zero-filled. When the allocation fails the
      pointer stored is 0 and the block zero-filled is block 0. */
  function NewIndex(fs: Fs, n: Inode, path: seq<nat>, up: u32): (r: (Fs, Inode, u32))
    requires Shape(fs) && IsPath(fs.sb.Ptrs(), path)
    ensures Shape(r.0) && |r.0.disk| == |fs.disk| && r.0.sb.BlockSize() == fs.sb.BlockSize()
            && SameGeometry(fs.sb, r.0.sb)
    ensures r.1 == n.(block := r.1.block)
  {
    BlockSizeFacts(fs.sb);
    var bsz := fs.sb.BlockSize();
    var data := ReadBlk(fs.disk, bsz, up as int);
    var (fs1, o) := Alloc(Blocks, fs);
    var ib := OrZero(o);
    if |path| == 1 then
      (PutBlk(fs1, ib as int, Zeros(bsz)), n.(block := n.block[path[0] := ib]), ib)
    else
      var fs2 := PutBlk(fs1, up as int, PutU32(data, 4 * Last(path), ib));
      (PutBlk(fs2, ib as int, Zeros(bsz)), n, ib)
  }

  /** The index block at `path`, with every index block above it, allocated where missing. */
  function EnsureIndex(fs: Fs, n: Inode, path: seq<nat>): (r: (Fs, Inode, u32))
    requires Shape(fs) && IsPath(fs.sb.Ptrs(), path)
    ensures Shape(r.0) && |r.0.disk| == |fs.disk| && r.0.sb.BlockSize() == fs.sb.BlockSize()
            && SameGeometry(fs.sb, r.0.sb)
    ensures r.1 == n.(block := r.1.block)
    decreases |path|
  {
    if |path| == 1 then
      if n.block[path[0]] != 0 then (fs, n, n.block[path[0]]) else NewIndex(fs, n, path, 0)
    else
      ParentPath(fs.sb.Ptrs(), path);
      BlockSizeFacts(fs.sb);
      var (fs1, n1, up) := EnsureIndex(fs, n, Parent(path));
      var ib := IndexAt(ReadBlk(fs1.disk, fs1.sb.BlockSize(), up as int), Last(path));
      if ib != 0 then (fs1, n1, ib) else NewIndex(fs1, n1, path, up)
  }

  /** set_block. */
  function SetBlock(fs: Fs, n: Inode, blk: nat, phys: u32): (r: (Fs, Inode))
    requires Shape(fs) && fs.sb.Ptrs() > 0 && blk < MaxBlocks(fs.sb.Ptrs())
    ensures Shape(r.0) && |r.0.disk| == |fs.disk| && r.0.sb.BlockSize() == fs.sb.BlockSize()
            && SameGeometry(fs.sb, r.0.sb)
    ensures r.1 == n.(block := r.1.block)
  {
    var path := PathOf(fs.sb.Ptrs(), blk);
    PathOfIsLeaf(fs.sb.Ptrs(), blk);
    ParentPath(fs.sb.Ptrs(), path);
    if |path| == 1 then (fs, n.(block := n.block[path[0] := phys]))
    else
      BlockSizeFacts(fs.sb);
      var (fs1, n1, ib) := EnsureIndex(fs, n, Parent(path));
      var data := ReadBlk(fs1.disk, fs1.sb.BlockSize(), ib as int);
      (PutBlk(fs1, ib as int, PutU32(data, 4 * Last(path), phys)), n1)
  }

  // ---------------------------------------------------------------- what set_block does

  /** Writes on behalf of inode `ino`: the owned blocks that change are the allocator's or the
      inode's, new blocks were free and go to the inode, and no inode is allocated or released. */
  ghost predicate Grew(fs: Fs, r: Fs, own: Ownership, own2: Ownership, ino: nat)
    requires Shape(fs)
  {
    && SameStatic(fs, r)
    && (forall b :: b in own ==> b in own2 && own2[b] == own[b])
    && (forall b :: b in own2 && b !in own ==> OwnedBy(own2[b], ino) && !Used(fs, Blocks, b))
    && (forall b :: 0 <= b < |fs.disk| && r.disk[b] != fs.disk[b] ==>
          (b in own && (AllocOwned(own[b]) || OwnedBy(own[b], ino))) || !Used(fs, Blocks, b))
    && (forall i: nat :: InRange(Inodes, fs.sb, i) ==> Used(r, Inodes, i) == Used(fs, Inodes, i))
    && (forall b: nat :: InRange(Blocks, fs.sb, b) && Used(fs, Blocks, b) ==> Used(r, Blocks, b))
    && r.sb.freeInodes == fs.sb.freeInodes
  }

  /** The inode's data blocks keep their contents. */
  ghost predicate LeavesKept(d: seq<Buf>, r: seq<Buf>, own: Ownership, ino: nat) {
    && |r| == |d|
    && forall b :: b in own && b < |d| && OwnedBy(own[b], ino) && IsLeaf(own[b].path) ==> r[b] == d[b]
  }

  lemma GrewTrans(fs: Fs, a: Fs, r: Fs, own: Ownership, own1: Ownership, own2: Ownership, ino: nat)
    requires Shape(fs) && Shape(a) && Grew(fs, a, own, own1, ino) && Grew(a, r, own1, own2, ino)
    requires forall b :: b in own1 ==> b < |fs.disk|
    requires forall b :: b in own2 ==> b < |fs.disk|
    ensures Grew(fs, r, own, own2, ino)
  {
    hide Superblock.Valid, Used;
    DerivedKept(fs.sb, a.sb);
    assert forall k, i: nat :: InRange(k, a.sb, i) == InRange(k, fs.sb, i);
  }

  lemma LeavesKeptTrans(d: seq<Buf>, e: seq<Buf>, r: seq<Buf>, own: Ownership, own1: Ownership, ino: nat)
    requires LeavesKept(d, e, own, ino) && LeavesKept(e, r, own1, ino)
    requires forall b :: b in own ==> b in own1 && own1[b] == own[b]
    ensures LeavesKept(d, r, own, ino)
  {
  }

  /** Allocating a block leaves every inode's map as it was. */
  lemma AllocKeepsTree(fs: Fs, r: Fs, own: Ownership, p: nat, ino: nat, s: Slots)
    requires DiskShape(fs.disk, 4 * p) && DiskShape(r.disk, 4 * p) && MetaOnly(fs.disk, r.disk, own)
    requires TreeOk(fs.disk, p, own, ino, s)
    ensures forall q :: IsPath(p, q) ==> PtrAt(r.disk, p, s, q) == PtrAt(fs.disk, p, s, q)
    ensures TreeOk(r.disk, p, own, ino, s)
  {
    forall q | IsPath(p, q) ensures PtrAt(r.disk, p, s, q) == PtrAt(fs.disk, p, s, q) {
      PtrFrame(fs.disk, r.disk, p, own, ino, s, q);
    }
  }

  /** What alloc_block hands out: a block nobody owns, and not block 0. */
  lemma FreshBlock(fs: Fs, own: Ownership)
    requires Core(fs, own) && fs.sb.freeBlocks > 0
    ensures var (r, o) := Alloc(Blocks, fs);
            && o.Some? && Moved(Blocks, fs, r, own, o.value, true)
            && OrZero(o) as int == o.value && 0 < o.value < |fs.disk| && o.value !in own
            && !Used(fs, Blocks, o.value) && Used(r, Blocks, o.value)
            && r.sb.freeBlocks as int == fs.sb.freeBlocks as int - 1
  {
    hide Counted, Padded, Synced, Superblock.Valid, Used, Alloc;
    AllocSpec(Blocks, fs, own);
    var (r, o) := Alloc(Blocks, fs);
    assert Owns(own, 0, OwnSuper);
    var b := o.value;
    assert b in own ==> Used(fs, Blocks, b);
    assert Used(fs, Blocks, 0);
  }

  /** The volume after NewIndex, as one pointer stored and one block zero-filled. */
  lemma NewIndexWrites(fs: Fs, own: Ownership, n: Inode, path: seq<nat>, up: u32)
    requires Core(fs, own) && IsPath(fs.sb.Ptrs(), path) && fs.sb.freeBlocks > 0 && !IsLeaf(path)
    requires fs.sb.BlockSize() == 4 * fs.sb.Ptrs()
    requires TreeOk(fs.disk, fs.sb.Ptrs(), own, n.ino as int, n.block)
    requires |path| > 1 ==>
             up != 0 && IsPath(fs.sb.Ptrs(), Parent(path)) && up == PtrAt(fs.disk, fs.sb.Ptrs(), n.block, Parent(path))
    ensures var (a, o) := Alloc(Blocks, fs);
            var (r, n2, ib) := NewIndex(fs, n, path, up);
            var (d, t) := Store(a.disk, fs.sb.Ptrs(), n.block, path, ib);
            && o.Some? && ib as int == o.value < |a.disk|
            && r == a.(disk := d[ib := Zeros(fs.sb.BlockSize())]) && n2 == n.(block := t)
  {
    hide Counted, Padded, Synced, OwnUsed, Superblock.Valid, Used, Layout, PutU32, Zeros, IsPath, Alloc;
    var p := fs.sb.Ptrs();
    var (a, o) := Alloc(Blocks, fs);
    FreshBlock(fs, own);
    AllocKeepsTree(fs, a, own, p, n.ino as int, n.block);
    ParentPath(p, path);
    if |path| > 1 {
      assert PtrAt(a.disk, p, n.block, Parent(path)) == up;
      assert Owns(own, up as int, OwnPtr(n.ino as int, Parent(path)));
      assert a.disk[up] == fs.disk[up];
    }
  }

  lemma TreeAfterLink(d: seq<Buf>, s: Slots, r: seq<Buf>, t: Slots, p: nat, own: Ownership, ino: nat, path: seq<nat>,
      b: u32)
    requires DiskShape(d, 4 * p) && DiskShape(r, 4 * p) && |r| == |d|
    requires TreeOk(d, p, own, ino, s) && Linked(d, s, r, t, p, path, b)
    requires b as int !in own && b as int < |d|
    ensures TreeOk(r, p, own[b as int := OwnPtr(ino, path)], ino, t)
  {
    hide PtrAt, IsPath;
  }

  lemma NewIndexSpec(fs: Fs, own: Ownership, n: Inode, path: seq<nat>, up: u32)
    requires Core(fs, own) && IsPath(fs.sb.Ptrs(), path) && fs.sb.freeBlocks > 0 && !IsLeaf(path)
    requires fs.sb.BlockSize() == 4 * fs.sb.Ptrs()
    requires TreeOk(fs.disk, fs.sb.Ptrs(), own, n.ino as int, n.block)
    requires PtrAt(fs.disk, fs.sb.Ptrs(), n.block, path) == 0
    requires |path| > 1 ==>
             up != 0 && IsPath(fs.sb.Ptrs(), Parent(path)) && up == PtrAt(fs.disk, fs.sb.Ptrs(), n.block, Parent(path))
    ensures var (r, n2, ib) := NewIndex(fs, n, path, up);
            var own2 := own[ib as int := OwnPtr(n.ino as int, path)];
            && ib != 0 && ib as int !in own && ib as int < |fs.disk|
            && Core(r, own2) && Grew(fs, r, own, own2, n.ino as int)
            && LeavesKept(fs.disk, r.disk, own, n.ino as int)
            && Linked(fs.disk, n.block, r.disk, n2.block, fs.sb.Ptrs(), path, ib)
            && n2 == n.(block := n2.block)
            && r.sb.freeBlocks as int == fs.sb.freeBlocks as int - 1
  {
    hide Counted, Padded, Synced, Superblock.Valid, Used, Layout, PutU32, Zeros, IsPath, Alloc, NewIndex, Grew, Store,
         InRange, LeavesKept;
    var p, ino := fs.sb.Ptrs(), n.ino as int;
    var (a, o) := Alloc(Blocks, fs);
    var (r, n2, ib) := NewIndex(fs, n, path, up);
    FreshBlock(fs, own);
    NewIndexWrites(fs, own, n, path, up);
    AllocKeepsTree(fs, a, own, p, ino, n.block);
    ParentPath(p, path);
    forall q | IsPath(p, q)
        ensures PtrAt(r.disk, p, n2.block, q) == if q == path then ib else PtrAt(fs.disk, p, n.block, q) {
      LinkAt(a.disk, p, own, ino, n.block, path, ib, r.disk, q);
    }
    NewIndexFrame(fs, a, own, n, path, ib, r);
  }

  lemma NewIndexFrame(fs: Fs, a: Fs, own: Ownership, n: Inode, path: seq<nat>, ib: u32, r: Fs)
    requires Shape(fs) && IsPath(fs.sb.Ptrs(), path) && !IsLeaf(path) && fs.sb.BlockSize() == 4 * fs.sb.Ptrs()
    requires Moved(Blocks, fs, a, own, ib as int, true) && ib as int !in own && ib as int < |fs.disk|
             && !Used(fs, Blocks, ib as int)
    requires DiskShape(a.disk, 4 * fs.sb.Ptrs()) && TreeOk(a.disk, fs.sb.Ptrs(), own, n.ino as int, n.block)
    requires |path| > 1 ==>
             IsPath(fs.sb.Ptrs(), Parent(path)) && PtrAt(a.disk, fs.sb.Ptrs(), n.block, Parent(path)) != 0
    requires r == a.(disk := Store(a.disk, fs.sb.Ptrs(), n.block, path, ib).0[ib := Zeros(fs.sb.BlockSize())])
    ensures var own2 := own[ib as int := OwnPtr(n.ino as int, path)];
            && Core(r, own2) && Grew(fs, r, own, own2, n.ino as int)
            && LeavesKept(fs.disk, r.disk, own, n.ino as int)
  {
    hide Counted, Padded, Synced, Superblock.Valid, BitUsed, PutU32, Zeros, IsPath, OwnUsed, GroupOf, BitOfItem;
    var p, ino := fs.sb.Ptrs(), n.ino as int;
    ParentPath(p, path);
    if |path| > 1 {
      assert Owns(own, PtrAt(a.disk, p, n.block, Parent(path)) as int, OwnPtr(ino, Parent(path)));
    }
    CoreFrame(a, own, r.disk);
    CoreGive(r, own, ib as int, OwnPtr(ino, path));
    assert r.sb.Free(Inodes) == fs.sb.Free(Inodes);
    forall b | 0 <= b < |fs.disk| && r.disk[b] != fs.disk[b]
      ensures (b in own && (AllocOwned(own[b]) || OwnedBy(own[b], ino))) || !Used(fs, Blocks, b)
    {
      if b != ib as int && a.disk[b] == fs.disk[b] { assert r.disk[b] != a.disk[b]; }
    }
  }

  /** Number of index blocks missing down to `path`. */
  ghost function Missing(d: seq<Buf>, p: nat, s: Slots, path: seq<nat>): nat
    requires DiskShape(d, 4 * p) && IsPath(p, path)
    decreases |path|
  {
    if PtrAt(d, p, s, path) != 0 then 0
    else if |path| == 1 then 1
    else 1 + Missing(d, p, s, Parent(path))
  }

  lemma {:induction false} MissingBound(d: seq<Buf>, p: nat, s: Slots, path: seq<nat>)
    requires DiskShape(d, 4 * p) && IsPath(p, path)
    ensures Missing(d, p, s, path) <= |path| && (!IsLeaf(path) ==> |path| <= 3)
    decreases |path|
  {
    hide PtrAt, DiskShape;
    if |path| > 1 { MissingBound(d, p, s, Parent(path)); }
  }

  /** Every index block down to `path` exists; nothing else changed. */
  ghost predicate Ensured(d: seq<Buf>, s: Slots, r: seq<Buf>, t: Slots, p: nat, path: seq<nat>)
    requires DiskShape(d, 4 * p) && DiskShape(r, 4 * p)
  {
    forall q :: IsPath(p, q) ==>
      if q <= path then PtrAt(r, p, t, q) != 0 && (PtrAt(d, p, s, q) != 0 ==> PtrAt(r, p, t, q) == PtrAt(d, p, s, q))
      else PtrAt(r, p, t, q) == PtrAt(d, p, s, q)
  }

  ghost predicate IndexSpec(fs: Fs, own: Ownership, n: Inode, path: seq<nat>, r: Fs, n2: Inode, ib: u32,
      own2: Ownership)
    requires Shape(fs) && IsPath(fs.sb.Ptrs(), path) && fs.sb.BlockSize() == 4 * fs.sb.Ptrs()
  {
    var p, ino := fs.sb.Ptrs(), n.ino as int;
    && Core(r, own2) && r.sb.BlockSize() == fs.sb.BlockSize()
    && Grew(fs, r, own, own2, ino) && LeavesKept(fs.disk, r.disk, own, ino)
    && TreeOk(r.disk, p, own2, ino, n2.block)
    && Ensured(fs.disk, n.block, r.disk, n2.block, p, path)
    && ib == PtrAt(r.disk, p, n2.block, path)
    && n2 == n.(block := n2.block)
    && r.sb.freeBlocks as int == fs.sb.freeBlocks as int - Missing(fs.disk, p, n.block, path)
  }

  lemma {:induction false} EnsureIndexSpec(fs: Fs, own: Ownership, n: Inode, path: seq<nat>) returns (own2: Ownership)
    requires Core(fs, own) && IsPath(fs.sb.Ptrs(), path) && !IsLeaf(path) && fs.sb.BlockSize() == 4 * fs.sb.Ptrs()
    requires TreeOk(fs.disk, fs.sb.Ptrs(), own, n.ino as int, n.block)
    requires Missing(fs.disk, fs.sb.Ptrs(), n.block, path) <= fs.sb.freeBlocks as int
    ensures var (r, n2, ib) := EnsureIndex(fs, n, path); IndexSpec(fs, own, n, path, r, n2, ib, own2)
    decreases |path|
  {
    hide Counted, Padded, Synced, OwnUsed, Superblock.Valid, Layout, NewIndex, Grew, IsPath, LeavesKept, Linked,
         Ensured;
    var p, ino := fs.sb.Ptrs(), n.ino as int;
    ParentPath(p, path);
    if |path| == 1 {
      if n.block[path[0]] != 0 {
        own2 := own;
        IndexThere(fs, own, n, path);
      } else {
        own2 := NewIndexEnsures(fs, own, n, path, 0);
      }
    } else {
      var up := Parent(path);
      MissingParent(fs.disk, p, n.block, path);
      var (fs1, n1, ib1) := EnsureIndex(fs, n, up);
      var own1 := EnsureIndexSpec(fs, own, n, up);
      assert fs1.sb.Ptrs() == p;
      EnsuredOutside(fs.disk, n.block, fs1.disk, n1.block, p, up, path);
      if PtrAt(fs.disk, p, n.block, path) != 0 {
        own2 := own1;
        assert Missing(fs.disk, p, n.block, up) == 0;
        EnsuredExtends(fs.disk, n.block, fs1.disk, n1.block, p, path);
      } else {
        own2 := NewIndexEnsures(fs1, own1, n1, path, ib1);
        IndexSpecTrans(fs, own, n, path, fs1, n1, ib1, own1, own2);
      }
    }
  }

  lemma MissingParent(d: seq<Buf>, p: nat, s: Slots, path: seq<nat>)
    requires DiskShape(d, 4 * p) && IsPath(p, path) && |path| > 1
    ensures IsPath(p, Parent(path)) && Missing(d, p, s, Parent(path)) <= Missing(d, p, s, path)
    ensures PtrAt(d, p, s, path) != 0 ==> PtrAt(d, p, s, Parent(path)) != 0
  {
  }

  lemma EnsuredOutside(d: seq<Buf>, s: Slots, r: seq<Buf>, t: Slots, p: nat, up: seq<nat>, q: seq<nat>)
    requires DiskShape(d, 4 * p) && DiskShape(r, 4 * p) && Ensured(d, s, r, t, p, up) && IsPath(p, q) && IsPath(p, up)
    ensures |q| > |up| ==> PtrAt(r, p, t, q) == PtrAt(d, p, s, q)
    ensures PtrAt(r, p, t, up) != 0
  {
    hide IsPath, PtrAt;
    assert up <= up;
  }

  lemma EnsuredExtends(d: seq<Buf>, s: Slots, r: seq<Buf>, t: Slots, p: nat, path: seq<nat>)
    requires DiskShape(d, 4 * p) && DiskShape(r, 4 * p) && IsPath(p, path) && |path| > 1
    requires Ensured(d, s, r, t, p, Parent(path)) && PtrAt(d, p, s, path) != 0
    ensures Ensured(d, s, r, t, p, path)
  {
    hide IsPath, PtrAt;
    forall q | IsPath(p, q)
      ensures if q <= path
              then PtrAt(r, p, t, q) != 0 && (PtrAt(d, p, s, q) != 0 ==> PtrAt(r, p, t, q) == PtrAt(d, p, s, q))
              else PtrAt(r, p, t, q) == PtrAt(d, p, s, q)
    {
      assert q <= path ==> q == path || q <= Parent(path);
      assert q <= Parent(path) ==> q <= path;
    }
  }

  lemma IndexThere(fs: Fs, own: Ownership, n: Inode, path: seq<nat>)
    requires Core(fs, own) && IsPath(fs.sb.Ptrs(), path) && |path| == 1 && fs.sb.BlockSize() == 4 * fs.sb.Ptrs()
    requires TreeOk(fs.disk, fs.sb.Ptrs(), own, n.ino as int, n.block) && n.block[path[0]] != 0
    ensures IndexSpec(fs, own, n, path, fs, n, n.block[path[0]], own)
  {
    hide Counted, Padded, Synced, OwnUsed, Superblock.Valid, Layout, Used;
    assert forall q :: IsPath(fs.sb.Ptrs(), q) && q <= path ==> q == path;
  }

  lemma NewIndexEnsures(fs: Fs, own: Ownership, n: Inode, path: seq<nat>, up: u32) returns (own2: Ownership)
    requires Core(fs, own) && IsPath(fs.sb.Ptrs(), path) && fs.sb.freeBlocks > 0 && !IsLeaf(path)
    requires fs.sb.BlockSize() == 4 * fs.sb.Ptrs()
    requires TreeOk(fs.disk, fs.sb.Ptrs(), own, n.ino as int, n.block)
    requires PtrAt(fs.disk, fs.sb.Ptrs(), n.block, path) == 0
    requires |path| > 1 ==>
             up != 0 && IsPath(fs.sb.Ptrs(), Parent(path)) && up == PtrAt(fs.disk, fs.sb.Ptrs(), n.block, Parent(path))
    ensures var (r, n2, ib) := NewIndex(fs, n, path, up); IndexSpec(fs, own, n, path, r, n2, ib, own2)
  {
    hide Counted, Padded, Synced, OwnUsed, Superblock.Valid, Layout, NewIndex, Grew, IsPath, LeavesKept;
    var p, ino := fs.sb.Ptrs(), n.ino as int;
    var (r, n2, ib) := NewIndex(fs, n, path, up);
    NewIndexSpec(fs, own, n, path, up);
    own2 := own[ib as int := OwnPtr(ino, path)];
    TreeAfterLink(fs.disk, n.block, r.disk, n2.block, p, own, ino, path, ib);
    PrefixesThere(fs.disk, p, n.block, path);
  }

  lemma {:induction false} PrefixesThere(d: seq<Buf>, p: nat, s: Slots, path: seq<nat>)
    requires DiskShape(d, 4 * p) && IsPath(p, path)
    requires |path| > 1 ==> IsPath(p, Parent(path)) && PtrAt(d, p, s, Parent(path)) != 0
    ensures forall q :: IsPath(p, q) && q <= path && q != path ==> PtrAt(d, p, s, q) != 0
    ensures PtrAt(d, p, s, path) == 0 ==> Missing(d, p, s, path) == 1
    decreases |path|
  {
    if |path| > 1 {
      var up := Parent(path);
      if |up| > 1 { assert PtrAt(d, p, s, Parent(up)) != 0; }
      PrefixesThere(d, p, s, up);
      forall q | IsPath(p, q) && q <= path && q != path ensures PtrAt(d, p, s, q) != 0 {
        assert q <= up;
      }
    }
  }

  lemma IndexSpecTrans(fs: Fs, own: Ownership, n: Inode, path: seq<nat>, fs1: Fs, n1: Inode, ib1: u32, own1: Ownership,
      own2: Ownership)
    requires Core(fs, own) && IsPath(fs.sb.Ptrs(), path) && |path| > 1 && fs.sb.BlockSize() == 4 * fs.sb.Ptrs()
    requires IsPath(fs.sb.Ptrs(), Parent(path)) && PtrAt(fs.disk, fs.sb.Ptrs(), n.block, path) == 0
    requires IndexSpec(fs, own, n, Parent(path), fs1, n1, ib1, own1) && fs1.sb.Ptrs() == fs.sb.Ptrs()
    requires var (r, n2, ib) := NewIndex(fs1, n1, path, ib1); IndexSpec(fs1, own1, n1, path, r, n2, ib, own2)
    requires PtrAt(fs1.disk, fs.sb.Ptrs(), n1.block, path) == 0 && ib1 != 0
    ensures var (r, n2, ib) := NewIndex(fs1, n1, path, ib1); IndexSpec(fs, own, n, path, r, n2, ib, own2)
  {
    hide Counted, Padded, Synced, OwnUsed, Superblock.Valid, Grew, NewIndex, IsPath, LeavesKept, PtrAt, Missing;
    var p, ino := fs.sb.Ptrs(), n.ino as int;
    var (r, n2, ib) := NewIndex(fs1, n1, path, ib1);
    GrewOwn(fs, fs1, own, own1, ino);
    GrewOwn(fs1, r, own1, own2, ino);
    GrewTrans(fs, fs1, r, own, own1, own2, ino);
    LeavesKeptTrans(fs.disk, fs1.disk, r.disk, own, own1, ino);
    MissingStep(fs.disk, p, n.block, path);
    MissingOne(fs1.disk, p, n1.block, path);
    EnsuredTrans(fs.disk, n.block, fs1.disk, n1.block, r.disk, n2.block, p, path);
  }

  lemma GrewOwn(fs: Fs, r: Fs, own: Ownership, own2: Ownership, ino: nat)
    requires Shape(fs) && Grew(fs, r, own, own2, ino)
    ensures forall b :: b in own ==> b in own2 && own2[b] == own[b]
    ensures SameStatic(fs, r)
  {
  }

  lemma MissingStep(d: seq<Buf>, p: nat, s: Slots, path: seq<nat>)
    requires DiskShape(d, 4 * p) && IsPath(p, path) && |path| > 1 && IsPath(p, Parent(path))
             && PtrAt(d, p, s, path) == 0
    ensures Missing(d, p, s, path) == 1 + Missing(d, p, s, Parent(path))
  {
  }

  lemma MissingOne(d: seq<Buf>, p: nat, s: Slots, path: seq<nat>)
    requires DiskShape(d, 4 * p) && IsPath(p, path) && |path| > 1 && IsPath(p, Parent(path))
             && PtrAt(d, p, s, path) == 0
    requires PtrAt(d, p, s, Parent(path)) != 0
    ensures Missing(d, p, s, path) == 1
  {
  }

  lemma EnsuredTrans(d: seq<Buf>, s: Slots, e: seq<Buf>, u: Slots, r: seq<Buf>, t: Slots, p: nat, path: seq<nat>)
    requires DiskShape(d, 4 * p) && DiskShape(e, 4 * p) && DiskShape(r, 4 * p) && IsPath(p, path) && |path| > 1
    requires Ensured(d, s, e, u, p, Parent(path)) && Ensured(e, u, r, t, p, path) && PtrAt(d, p, s, path) == 0
    ensures Ensured(d, s, r, t, p, path)
  {
    hide IsPath, PtrAt;
    forall q | IsPath(p, q)
      ensures if q <= path
              then PtrAt(r, p, t, q) != 0 && (PtrAt(d, p, s, q) != 0 ==> PtrAt(r, p, t, q) == PtrAt(d, p, s, q))
              else PtrAt(r, p, t, q) == PtrAt(d, p, s, q)
    {
      assert q <= path ==> q == path || q <= Parent(path);
      assert q <= Parent(path) ==> q <= path;
    }
  }

  /** Room for the index blocks that logical block `blk` still needs. */
  ghost predicate IndexRoom(fs: Fs, n: Inode, blk: nat)
    requires Shape(fs) && fs.sb.Ptrs() > 0 && fs.sb.BlockSize() == 4 * fs.sb.Ptrs() && blk < MaxBlocks(fs.sb.Ptrs())
  {
    PathOfIsLeaf(fs.sb.Ptrs(), blk);
    var path := PathOf(fs.sb.Ptrs(), blk);
    ParentPath(fs.sb.Ptrs(), path);
    |path| > 1 ==> Missing(fs.disk, fs.sb.Ptrs(), n.block, Parent(path)) <= fs.sb.freeBlocks as int
  }

  /** The pointers down to `path` are set; every other one is set exactly if it was. */
  ghost predicate Filled(d: seq<Buf>, s: Slots, r: seq<Buf>, t: Slots, p: nat, path: seq<nat>)
    requires DiskShape(d, 4 * p) && DiskShape(r, 4 * p)
  {
    forall q :: IsPath(p, q) ==> (PtrAt(r, p, t, q) == 0 <==> PtrAt(d, p, s, q) == 0 && !(q <= path))
  }

  lemma EnsuredFilled(d: seq<Buf>, s: Slots, e: seq<Buf>, u: Slots, r: seq<Buf>, t: Slots, p: nat, path: seq<nat>,
      b: u32)
    requires DiskShape(d, 4 * p) && DiskShape(e, 4 * p) && DiskShape(r, 4 * p) && IsPath(p, path) && b != 0
    requires if |path| > 1 then Ensured(d, s, e, u, p, Parent(path)) else e == d && u == s
    requires Linked(e, u, r, t, p, path, b)
    ensures Filled(d, s, r, t, p, path)
  {
    hide PtrAt;
    forall q | IsPath(p, q) ensures PtrAt(r, p, t, q) == 0 <==> PtrAt(d, p, s, q) == 0 && !(q <= path) {
      assert q <= path ==> q == path || q <= Parent(path);
      assert q <= Parent(path) ==> q <= path;
    }
  }

  /** The index blocks that logical block `blk` still needs. */
  ghost function IndexMissing(fs: Fs, n: Inode, blk: nat): nat
    requires Shape(fs) && fs.sb.Ptrs() > 0 && fs.sb.BlockSize() == 4 * fs.sb.Ptrs() && blk < MaxBlocks(fs.sb.Ptrs())
  {
    PathOfIsLeaf(fs.sb.Ptrs(), blk);
    var path := PathOf(fs.sb.Ptrs(), blk);
    ParentPath(fs.sb.Ptrs(), path);
    if |path| > 1 then Missing(fs.disk, fs.sb.Ptrs(), n.block, Parent(path)) else 0
  }

  lemma GrewSelf(fs: Fs, own: Ownership, ino: nat)
    requires Shape(fs)
    ensures Grew(fs, fs, own, own, ino) && LeavesKept(fs.disk, fs.disk, own, ino)
  {
  }

  lemma EnsuredLeaf(d: seq<Buf>, s: Slots, r: seq<Buf>, t: Slots, p: nat, up: seq<nat>, q: seq<nat>)
    requires DiskShape(d, 4 * p) && DiskShape(r, 4 * p) && IsPath(p, q) && IsPath(p, up) && !IsLeaf(up) && IsLeaf(q)
    requires Ensured(d, s, r, t, p, up)
    ensures PtrAt(r, p, t, q) == PtrAt(d, p, s, q)
  {
    hide PtrAt;
    assert !(q <= up);
  }

  lemma LeafStore(fs: Fs, own: Ownership, e: Fs, own1: Ownership, n: Inode, path: seq<nat>, phys: u32, r: Fs, t: Slots)
    requires Shape(fs) && IsPath(fs.sb.Ptrs(), path) && IsLeaf(path) && fs.sb.BlockSize() == 4 * fs.sb.Ptrs()
    requires Core(e, own1) && e.sb.BlockSize() == fs.sb.BlockSize() && Grew(fs, e, own, own1, n.ino as int)
    requires TreeOk(e.disk, fs.sb.Ptrs(), own1, n.ino as int, n.block) && LeavesKept(fs.disk, e.disk, own, n.ino as int)
    requires phys != 0 && phys as int !in own && InRange(Blocks, fs.sb, phys as int) && Used(fs, Blocks, phys as int)
    requires |path| > 1 ==>
             IsPath(fs.sb.Ptrs(), Parent(path)) && PtrAt(e.disk, fs.sb.Ptrs(), n.block, Parent(path)) != 0
    requires r.sb == e.sb && r.bgdt == e.bgdt && (r.disk, t) == Store(e.disk, fs.sb.Ptrs(), n.block, path, phys)
    ensures var p, ino := fs.sb.Ptrs(), n.ino as int;
            var own2 := own1[phys as int := OwnPtr(ino, path)];
            && Core(r, own2) && TreeOk(r.disk, p, own2, ino, t)
            && Linked(e.disk, n.block, r.disk, t, p, path, phys)
            && Grew(fs, r, own[phys as int := OwnPtr(ino, path)], own2, ino)
            && LeavesKept(fs.disk, r.disk, own, ino) && r.disk[phys] == fs.disk[phys]
  {
    hide Counted, Padded, Synced, Superblock.Valid, BitUsed, Zeros, IsPath, OwnUsed, GroupOf, BitOfItem, Linked,
         TreeOk, Store, LeavesKept;
    var p, ino := fs.sb.Ptrs(), n.ino as int;
    assert phys as int !in own1;
    LeafLinked(e.disk, p, own1, ino, n.block, path, phys);
    TreeAfterLink(e.disk, n.block, r.disk, t, p, own1, ino, path, phys);
    ParentPath(p, path);
    StoreFrame(e.disk, p, own1, ino, n.block, path, phys);
    CoreFrame(e, own1, r.disk);
    assert Used(e, Blocks, phys as int);
    CoreGive(r, own1, phys as int, OwnPtr(ino, path));
    LeafGrew(fs, own, e, own1, r, ino, path, phys);
  }

  /** Linking a data block writes no block but an index block of the inode. */
  lemma StoreFrame(d: seq<Buf>, p: nat, own: Ownership, ino: nat, s: Slots, path: seq<nat>, phys: u32)
    requires DiskShape(d, 4 * p) && TreeOk(d, p, own, ino, s) && IsPath(p, path) && IsLeaf(path)
    requires |path| > 1 ==> IsPath(p, Parent(path)) && PtrAt(d, p, s, Parent(path)) != 0 && !IsLeaf(Parent(path))
    ensures var r := Store(d, p, s, path, phys).0;
            |r| == |d| && forall b :: 0 <= b < |d| && r[b] != d[b] ==> IndexOf(own, b, ino)
  {
    hide IsPath, TreeOk, PutU32;
    if |path| > 1 { ParentOwned(d, p, own, ino, s, path); }
  }

  ghost predicate IndexOf(own: Ownership, b: nat, ino: nat) {
    b in own && OwnedBy(own[b], ino) && !IsLeaf(own[b].path)
  }

  lemma LeafGrew(fs: Fs, own: Ownership, e: Fs, own1: Ownership, r: Fs, ino: nat, path: seq<nat>, phys: u32)
    requires Shape(fs) && Grew(fs, e, own, own1, ino) && LeavesKept(fs.disk, e.disk, own, ino)
    requires r.sb == e.sb && r.bgdt == e.bgdt && |r.disk| == |e.disk| && phys as int < |fs.disk| && phys as int !in own1
    requires Used(fs, Blocks, phys as int)
    requires forall b :: 0 <= b < |e.disk| && r.disk[b] != e.disk[b] ==> IndexOf(own1, b, ino)
    requires forall k, i: nat :: Used(r, k, i) == Used(e, k, i)
    ensures Grew(fs, r, own[phys as int := OwnPtr(ino, path)], own1[phys as int := OwnPtr(ino, path)], ino)
    ensures LeavesKept(fs.disk, r.disk, own, ino) && r.disk[phys] == fs.disk[phys]
  {
    hide Superblock.Valid, Used, InRange;
    forall b | 0 <= b < |fs.disk| && r.disk[b] != fs.disk[b]
      ensures (b in own && (AllocOwned(own[b]) || OwnedBy(own[b], ino))) || !Used(fs, Blocks, b)
    {
      if e.disk[b] == fs.disk[b] { assert IndexOf(own1, b, ino); }
    }
  }

  lemma ParentOwned(d: seq<Buf>, p: nat, own: Ownership, ino: nat, s: Slots, path: seq<nat>)
    requires DiskShape(d, 4 * p) && TreeOk(d, p, own, ino, s) && IsPath(p, path) && |path| > 1
             && IsPath(p, Parent(path))
    requires PtrAt(d, p, s, Parent(path)) != 0
    ensures PtrAt(d, p, s, Parent(path)) as int < |d|
    ensures Owns(own, PtrAt(d, p, s, Parent(path)) as int, OwnPtr(ino, Parent(path)))
  {
  }

  lemma LeafLinked(d: seq<Buf>, p: nat, own: Ownership, ino: nat, s: Slots, path: seq<nat>, b: u32)
    requires DiskShape(d, 4 * p) && IsPath(p, path) && IsLeaf(path) && TreeOk(d, p, own, ino, s)
    requires |path| > 1 ==> IsPath(p, Parent(path)) && PtrAt(d, p, s, Parent(path)) != 0
    requires b != 0 && b as int < |d| && b as int !in own
    ensures var (r, t) := Store(d, p, s, path, b); Linked(d, s, r, t, p, path, b)
  {
    hide IsPath, TreeOk;
    var (r, t) := Store(d, p, s, path, b);
    forall q | IsPath(p, q) ensures PtrAt(r, p, t, q) == if q == path then b else PtrAt(d, p, s, q) {
      LinkAt(d, p, own, ino, s, path, b, r, q);
    }
  }

  /** The block-map update law. With room for the missing index blocks, storing a used, unowned
      block `phys` for logical block `blk` makes get_block return it there, and leaves every other
      logical block as it was, on all four levels; the map stays well-formed. */
  lemma SetBlockLaw(fs: Fs, own: Ownership, n: Inode, blk: nat, phys: u32) returns (own2: Ownership)
    requires Core(fs, own) && fs.sb.Ptrs() > 0 && fs.sb.BlockSize() == 4 * fs.sb.Ptrs() && blk < MaxBlocks(fs.sb.Ptrs())
    requires TreeOk(fs.disk, fs.sb.Ptrs(), own, n.ino as int, n.block)
    requires phys != 0 && phys as int !in own && InRange(Blocks, fs.sb, phys as int) && Used(fs, Blocks, phys as int)
    requires IndexRoom(fs, n, blk)
    ensures var (r, n2) := SetBlock(fs, n, blk, phys);
            var p, ino := fs.sb.Ptrs(), n.ino as int;
            && Core(r, own2) && r.sb.BlockSize() == fs.sb.BlockSize() && n2 == n.(block := n2.block)
            && Owns(own2, phys as int, OwnPtr(ino, PathOf(p, blk)))
            && TreeOk(r.disk, p, own2, ino, n2.block)
            && (forall m :: 0 <= m < MaxBlocks(p) ==>
                  GetBlock(r.disk, p, n2.block, m) == if m == blk then Some(phys) else GetBlock(fs.disk, p, n.block, m))
            && Grew(fs, r, own[phys as int := OwnPtr(ino, PathOf(p, blk))], own2, ino)
            && LeavesKept(fs.disk, r.disk, own, ino)
            && r.disk[phys] == fs.disk[phys]
            && r.sb.freeBlocks as int == fs.sb.freeBlocks as int - IndexMissing(fs, n, blk)
            && IndexMissing(fs, n, blk) <= 3
            && Filled(fs.disk, n.block, r.disk, n2.block, p, PathOf(p, blk))
  {
    hide Counted, Padded, Synced, OwnUsed, Superblock.Valid, Layout, EnsureIndex, Grew, IsPath, LeavesKept, TreeOk,
         PtrAt, Used, Missing, Ensured, PathOf, IsLeaf, Mul, Div, Mod, Filled;
    var p, ino := fs.sb.Ptrs(), n.ino as int;
    var path := PathOf(p, blk);
    PathOfIsLeaf(p, blk);
    ParentPath(p, path);
    var (r, n2) := SetBlock(fs, n, blk, phys);
    var e, m, ib, own1 := fs, n, 0, own;
    if |path| > 1 {
      var t := EnsureIndex(fs, n, Parent(path));
      e, m, ib := t.0, t.1, t.2;
      own1 := EnsureIndexSpec(fs, own, n, Parent(path));
      MissingBound(fs.disk, p, n.block, Parent(path));
      EnsuredOutside(fs.disk, n.block, e.disk, m.block, p, Parent(path), path);
    } else {
      GrewSelf(fs, own, ino);
    }
    own2 := own1[phys as int := OwnPtr(ino, path)];
    LeafStore(fs, own, e, own1, m, path, phys, r, n2.block);
    EnsuredFilled(fs.disk, n.block, e.disk, m.block, r.disk, n2.block, p, path, phys);
    forall j | 0 <= j < MaxBlocks(p)
      ensures GetBlock(r.disk, p, n2.block, j) == if j == blk then Some(phys) else GetBlock(fs.disk, p, n.block, j)
    {
      PathOfIsLeaf(p, j);
      if j != blk && PathOf(p, j) == path { PathOfInjective(p, j, blk); }
      if |path| > 1 { EnsuredLeaf(fs.disk, n.block, e.disk, m.block, p, Parent(path), PathOf(p, j)); }
    }
  }

  // ---------------------------------------------------------------- when an index block cannot be allocated

  ghost predicate Exhausted(fs: Fs) {
    forall g :: 0 <= g < |fs.bgdt| ==> fs.bgdt[g].Free(Blocks) == 0
  }

  lemma {:induction false} AllocExhausted(fs: Fs, g: nat)
    requires Shape(fs) && Exhausted(fs) && g <= |fs.bgdt|
    ensures AllocFrom(Blocks, fs, g) == (fs, None)
    decreases |fs.bgdt| - g
  {
    hide Shape;
    if g < |fs.bgdt| { AllocExhausted(fs, g + 1); }
  }

  lemma CountedExhausted(fs: Fs)
    requires Counted(fs) && fs.sb.freeBlocks == 0
    ensures Exhausted(fs)
  {
    assert fs.sb.Free(Blocks) as int == SumFree(Blocks, fs.bgdt);
    forall g | 0 <= g < |fs.bgdt| ensures fs.bgdt[g].Free(Blocks) == 0 { SumFreeAtLeast(Blocks, fs.bgdt, g); }
  }

  /** With nothing free, a missing index block is not created: block 0 is zero-filled instead. */
  lemma NewIndexFails(fs: Fs, n: Inode, path: seq<nat>, up: u32)
    requires Shape(fs) && Exhausted(fs) && IsPath(fs.sb.Ptrs(), path) && fs.sb.BlockSize() == 4 * fs.sb.Ptrs()
             && |fs.disk| > 0
    requires |path| == 1 ==> n.block[path[0]] == 0
    requires |path| > 1 ==> IndexAt(ReadBlk(fs.disk, fs.sb.BlockSize(), up as int), Last(path)) == 0
    ensures NewIndex(fs, n, path, up) == (fs.(disk := fs.disk[0 := Zeros(fs.sb.BlockSize())]), n, 0)
  {
    hide Superblock.Valid, Zeros, U32At, PutU32, AllocFrom;
    AllocExhausted(fs, 0);
    ParentPath(fs.sb.Ptrs(), path);
    if |path| == 1 {
      assert n.block[path[0] := 0] == n.block;
    } else {
      PutZero(ReadBlk(fs.disk, fs.sb.BlockSize(), up as int), Last(path));
      assert up as int < |fs.disk| ==> fs.disk[up := fs.disk[up]] == fs.disk;
    }
  }

  lemma PutZero(b: Buf, i: nat)
    requires 4 * i + 4 <= |b| && IndexAt(b, i) == 0
    ensures PutU32(b, 4 * i, 0) == b
  {
    U32Restores(b, 4 * i);
  }

  /** Roles and data blocks that outlive a failed walk. */
  ghost predicate Stays(fs: Fs, own: Ownership, r: Fs, own2: Ownership, ino: nat)
    requires Shape(fs) && Shape(r)
  {
    && SameStatic(fs, r) && Layout(r, own2) && LeavesKept(fs.disk, r.disk, own, ino)
    && (forall b :: b in own ==> b in own2 && own2[b] == own[b])
    && (forall b :: b in own2 && b !in own ==> !Used(fs, Blocks, b))
  }

  lemma StaysTrans(fs: Fs, own: Ownership, a: Fs, own1: Ownership, r: Fs, own2: Ownership, ino: nat)
    requires Shape(fs) && Shape(a) && Shape(r) && Stays(fs, own, a, own1, ino) && Stays(a, own1, r, own2, ino)
    requires forall b :: b in own2 && b !in own1 ==> !Used(fs, Blocks, b)
    ensures Stays(fs, own, r, own2, ino)
  {
    hide Superblock.Valid, Layout, LeavesKept, Used;
    LeavesKeptTrans(fs.disk, a.disk, r.disk, own, own1, ino);
  }

  lemma StaysGrew(fs: Fs, own: Ownership, r: Fs, own2: Ownership, ino: nat)
    requires Shape(fs) && Core(r, own2) && Grew(fs, r, own, own2, ino) && LeavesKept(fs.disk, r.disk, own, ino)
    ensures Stays(fs, own, r, own2, ino)
  {
    hide Superblock.Valid, Layout, LeavesKept, Counted, Padded, Synced, OwnUsed, Used;
  }

  /** The volume after a failed walk: block 0 is zero, the map reads as before. */
  ghost predicate FailSpec(fs: Fs, own: Ownership, n: Inode, path: seq<nat>, r: Fs, n2: Inode, ib: u32, own2: Ownership)
    requires Shape(fs) && IsPath(fs.sb.Ptrs(), path) && fs.sb.BlockSize() == 4 * fs.sb.Ptrs()
  {
    var p, ino := fs.sb.Ptrs(), n.ino as int;
    && Shape(r) && r.sb.BlockSize() == fs.sb.BlockSize() && r.sb.logBlockSize == fs.sb.logBlockSize
    && |r.disk| == |fs.disk| > 0 && Exhausted(r)
    && r.disk[0] == Zeros(4 * p) && ib == 0 && n2 == n.(block := n2.block)
    && Owns(own2, 0, OwnSuper) && TreeOk(r.disk, p, own2, ino, n2.block) && Stays(fs, own, r, own2, ino)
    && PtrAt(r.disk, p, n2.block, path) == 0
    && forall q :: IsPath(p, q) && IsLeaf(q) ==> PtrAt(r.disk, p, n2.block, q) == PtrAt(fs.disk, p, n.block, q)
  }

  lemma ZeroBlockKeepsTree(d: seq<Buf>, p: nat, own: Ownership, ino: nat, s: Slots, z: Buf)
    requires DiskShape(d, 4 * p) && |z| == 4 * p && |d| > 0 && TreeOk(d, p, own, ino, s) && Owns(own, 0, OwnSuper)
    ensures DiskShape(d[0 := z], 4 * p) && TreeOk(d[0 := z], p, own, ino, s)
    ensures forall q :: IsPath(p, q) ==> PtrAt(d[0 := z], p, s, q) == PtrAt(d, p, s, q)
  {
    var r := d[0 := z];
    forall q | IsPath(p, q) ensures PtrAt(r, p, s, q) == PtrAt(d, p, s, q) {
      PtrFrame(d, r, p, own, ino, s, q);
    }
  }

  lemma FailStep(fs: Fs, own: Ownership, n: Inode, path: seq<nat>, up: u32)
    requires Shape(fs) && Exhausted(fs) && IsPath(fs.sb.Ptrs(), path) && fs.sb.BlockSize() == 4 * fs.sb.Ptrs()
             && |fs.disk| > 0
    requires |path| > 1 ==> IndexAt(ReadBlk(fs.disk, fs.sb.BlockSize(), up as int), Last(path)) == 0
    requires Owns(own, 0, OwnSuper) && TreeOk(fs.disk, fs.sb.Ptrs(), own, n.ino as int, n.block)
    requires PtrAt(fs.disk, fs.sb.Ptrs(), n.block, path) == 0 && Layout(fs, own)
    ensures var (r, n2, ib) := NewIndex(fs, n, path, up); FailSpec(fs, own, n, path, r, n2, ib, own)
  {
    hide Superblock.Valid, Zeros, NewIndex, IsPath, TreeOk, IndexAt, Stays;
    ParentPath(fs.sb.Ptrs(), path);
    NewIndexFails(fs, n, path, up);
    ZeroBlockKeepsTree(fs.disk, fs.sb.Ptrs(), own, n.ino as int, n.block, Zeros(fs.sb.BlockSize()));
    ZeroBlockStays(fs, own, n.ino as int, Zeros(fs.sb.BlockSize()));
  }

  lemma ZeroBlockStays(fs: Fs, own: Ownership, ino: nat, z: Buf)
    requires Shape(fs) && Layout(fs, own) && |z| == fs.sb.BlockSize() && |fs.disk| > 0
    ensures var r := fs.(disk := fs.disk[0 := z]); Shape(r) && Stays(fs, own, r, own, ino)
  {
    hide Superblock.Valid;
    assert Owns(own, 0, OwnSuper);
  }

  lemma {:induction false} EnsureIndexFails(fs: Fs, own: Ownership, n: Inode, path: seq<nat>) returns (own2: Ownership)
    requires Core(fs, own) && IsPath(fs.sb.Ptrs(), path) && !IsLeaf(path) && fs.sb.BlockSize() == 4 * fs.sb.Ptrs()
    requires TreeOk(fs.disk, fs.sb.Ptrs(), own, n.ino as int, n.block)
    requires Missing(fs.disk, fs.sb.Ptrs(), n.block, path) > fs.sb.freeBlocks as int
    ensures var (r, n2, ib) := EnsureIndex(fs, n, path); FailSpec(fs, own, n, path, r, n2, ib, own2)
    decreases |path|
  {
    hide Padded, Synced, OwnUsed, Superblock.Valid, NewIndex, Grew, IsPath, LeavesKept, Ensured, TreeOk, Counted,
         Exhausted, IndexAt, Stays;
    var p, ino := fs.sb.Ptrs(), n.ino as int;
    ParentPath(p, path);
    assert Owns(own, 0, OwnSuper);
    if |path| == 1 {
      own2 := own;
      CountedExhausted(fs);
      FailStep(fs, own, n, path, 0);
    } else {
      var up := Parent(path);
      MissingStep(fs.disk, p, n.block, path);
      var (fs1, n1, ib1) := EnsureIndex(fs, n, up);
      if Missing(fs.disk, p, n.block, up) > fs.sb.freeBlocks as int {
        own2 := EnsureIndexFails(fs, own, n, up);
        ZeroIndex(4 * p, Last(path));
      } else {
        own2 := EnsureIndexSpec(fs, own, n, up);
        StaysGrew(fs, own, fs1, own2, ino);
        GrewOwn(fs, fs1, own, own2, ino);
        assert Owns(own2, 0, OwnSuper);
        CountedExhausted(fs1);
        EnsuredOutside(fs.disk, n.block, fs1.disk, n1.block, p, up, path);
        forall q | IsPath(p, q) && IsLeaf(q) ensures PtrAt(fs1.disk, p, n1.block, q) == PtrAt(fs.disk, p, n.block, q) {
          EnsuredLeaf(fs.disk, n.block, fs1.disk, n1.block, p, up, q);
        }
      }
      StaysLayout(fs, own, fs1, own2, ino);
      FailStep(fs1, own2, n1, path, ib1);
      StaysTrans(fs, own, fs1, own2, NewIndex(fs1, n1, path, ib1).0, own2, ino);
    }
  }

  lemma StaysLayout(fs: Fs, own: Ownership, r: Fs, own2: Ownership, ino: nat)
    requires Shape(fs) && Shape(r) && Stays(fs, own, r, own2, ino)
    ensures Layout(r, own2)
  {
    hide Superblock.Valid, Layout, LeavesKept;
  }

  lemma SameExhausted(fs: Fs, r: Fs)
    requires Exhausted(fs) && r.bgdt == fs.bgdt
    ensures Exhausted(r)
  {
  }

  /** set_block without room for its index blocks: the map and the data blocks are as before, and block 0 holds
      nothing but the pointer. */
  lemma SetBlockFails(fs: Fs, own: Ownership, n: Inode, blk: nat, phys: u32) returns (own2: Ownership)
    requires Core(fs, own) && fs.sb.Ptrs() > 0 && fs.sb.BlockSize() == 4 * fs.sb.Ptrs() && blk < MaxBlocks(fs.sb.Ptrs())
    requires TreeOk(fs.disk, fs.sb.Ptrs(), own, n.ino as int, n.block) && !IndexRoom(fs, n, blk)
    ensures var (r, n2) := SetBlock(fs, n, blk, phys);
            var p, ino := fs.sb.Ptrs(), n.ino as int;
            && TreeOk(r.disk, p, own2, ino, n2.block) && Stays(fs, own, r, own2, ino) && Exhausted(r)
            && (forall m :: 0 <= m < MaxBlocks(p) ==>
               GetBlock(r.disk, p, n2.block, m) == GetBlock(fs.disk, p, n.block, m))
            && |r.disk| > 0 && IsPath(p, PathOf(p, blk)) && Last(PathOf(p, blk)) < p
            && r.disk[0] == PutU32(Zeros(4 * p), 4 * Last(PathOf(p, blk)), phys)
  {
    hide Counted, Padded, Synced, OwnUsed, Superblock.Valid, Layout, EnsureIndex, Grew, IsPath, TreeOk, Used, PathOf,
         IsLeaf, Mul, Div, Mod, Zeros, PutU32, Exhausted, Stays;
    var p, ino := fs.sb.Ptrs(), n.ino as int;
    var path := PathOf(p, blk);
    PathOfIsLeaf(p, blk);
    ParentPath(p, path);
    var (e, n1, ib) := EnsureIndex(fs, n, Parent(path));
    own2 := EnsureIndexFails(fs, own, n, Parent(path));
    var z := PutU32(Zeros(4 * p), 4 * Last(path), phys);
    assert SetBlock(fs, n, blk, phys) == (e.(disk := e.disk[0 := z]), n1);
    ZeroBlockKeepsTree(e.disk, p, own2, ino, n1.block, z);
    StaysLayout(fs, own, e, own2, ino);
    ZeroBlockStays(e, own2, ino, z);
    StaysTrans(fs, own, e, own2, e.(disk := e.disk[0 := z]), own2, ino);
    SameExhausted(e, e.(disk := e.disk[0 := z]));
    forall m | 0 <= m < MaxBlocks(p)
      ensures GetBlock(SetBlock(fs, n, blk, phys).0.disk, p, n1.block, m) == GetBlock(fs.disk, p, n.block, m)
    {
      PathOfIsLeaf(p, m);
    }
  }

  /** set_block's guarantee holds exactly when there is room for the missing index blocks. Without
      it the map reads as before, and block 0 loses the superblock: only the word that was meant
      for the missing index block is not zero. */
  lemma SetBlockIff(fs: Fs, own: Ownership, n: Inode, blk: nat, phys: u32)
    requires Core(fs, own) && fs.sb.Ptrs() > 0 && fs.sb.BlockSize() == 4 * fs.sb.Ptrs() && blk < MaxBlocks(fs.sb.Ptrs())
    requires TreeOk(fs.disk, fs.sb.Ptrs(), own, n.ino as int, n.block)
    requires phys != 0 && phys as int !in own && InRange(Blocks, fs.sb, phys as int) && Used(fs, Blocks, phys as int)
    ensures var (r, n2) := SetBlock(fs, n, blk, phys);
            var p := fs.sb.Ptrs();
            && (GetBlock(r.disk, p, n2.block, blk) == Some(phys) <==> IndexRoom(fs, n, blk))
            && (!IndexRoom(fs, n, blk) ==>
                  && (forall m :: 0 <= m < MaxBlocks(p) ==>
                     GetBlock(r.disk, p, n2.block, m) == GetBlock(fs.disk, p, n.block, m))
                  && |r.disk| > 0 && IsPath(p, PathOf(p, blk)) && Last(PathOf(p, blk)) < p
                  && r.disk[0] == PutU32(Zeros(4 * p), 4 * Last(PathOf(p, blk)), phys))
  {
    hide Counted, Padded, Synced, OwnUsed, Superblock.Valid, Layout, SetBlock, Grew, IsPath, LeavesKept, TreeOk, Used,
         PathOf, Zeros, PutU32, IndexRoom, Stays, GetBlock;
    if IndexRoom(fs, n, blk) {
      var own2 := SetBlockLaw(fs, own, n, blk, phys);
    } else {
      var own2 := SetBlockFails(fs, own, n, blk, phys);
      NotMapped(fs, n, blk);
    }
  }

  /** A logical block with an index block missing above it is not mapped. */
  lemma NotMapped(fs: Fs, n: Inode, blk: nat)
    requires Shape(fs) && fs.sb.Ptrs() > 0 && fs.sb.BlockSize() == 4 * fs.sb.Ptrs() && blk < MaxBlocks(fs.sb.Ptrs())
             && !IndexRoom(fs, n, blk)
    ensures GetBlock(fs.disk, fs.sb.Ptrs(), n.block, blk).None?
  {
    hide Superblock.Valid, PathOf;
    PathOfIsLeaf(fs.sb.Ptrs(), blk);
    ParentPath(fs.sb.Ptrs(), PathOf(fs.sb.Ptrs(), blk));
  }

  /** The erased superblock: the volume can no longer be mounted, unless the stray word happens to
      spell the magic number. */
  lemma ErasedSuperblock(p: nat, i: nat, v: u32)
    requires 512 <= p && i < p
    ensures SuperAt(PutU32(Zeros(4 * p), 4 * i, v)).Some? ==> i == 270 && v % 0x1_0000 == Magic as int
  {
    hide PutU32, U32At;
    var b := PutU32(Zeros(4 * p), 4 * i, v);
    if i == 270 {
      LowHalf(b, 1080, v);
    } else {
      assert b[1080] == 0 && b[1081] == 0;
    }
  }

  lemma LowHalf(b: Buf, o: nat, v: u32)
    requires o + 4 <= |b| && U32At(b, o) == v
    ensures U16At(b, o) as int == v as int % 0x1_0000
  {
  }
}
