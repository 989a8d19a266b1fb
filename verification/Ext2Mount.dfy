/** Mounting (fs/src/ext2/mod.rs:39-54): Superblock::read and BgDescTable::read rebuild exactly
    the state the driver keeps in memory. */
module Ext2Mount {
  import opened Arith
  import opened Bytes
  import opened Ext2Layout
  import opened Ext2Alloc
  import opened Ext2File
  import opened Ext2Runs
  import opened Ext2Device
  import opened Ext2Driver

  /** Superblock::read on the 1024 bytes of sectors 2 and 3. */
  function ParseSuper(raw: Buf): Option<Superblock>
    requires |raw| == 1024
  {
    if U16At(raw, 56) != Magic then None
    else Some(Superblock(
      U32At(raw, 0), U32At(raw, 4), U32At(raw, 12), U32At(raw, 16), U32At(raw, 20),
      U32At(raw, 24), U32At(raw, 32), U32At(raw, 40), U16At(raw, 88), U32At(raw, 84)))
  }

  lemma ParseSuperIs(b: Buf)
    requires |b| >= 2048
    ensures ParseSuper(b[1024..2048]) == SuperAt(b)
  {
  }

  /** Every descriptor that lies wholly in `raw`, the start of the table, is the one on the volume. */
  ghost predicate TableRead(raw: Buf, disk: seq<Buf>, sb: Superblock)
    requires 1 <= sb.logBlockSize <= 5 && DiskShape(disk, sb.BlockSize())
  {
    forall g: nat {:trigger DiskDesc(disk, sb, g)} :: Mul(g, 32) + 32 <= |raw| ==>
        DescAt(raw, Mul(g, 32)) == DiskDesc(disk, sb, g)
  }

  lemma TableGrows(raw: Buf, blk: Buf, q: nat, disk: seq<Buf>, sb: Superblock)
    requires 1 <= sb.logBlockSize <= 5 && DiskShape(disk, sb.BlockSize())
    requires |raw| == Mul(q, sb.BlockSize()) && blk == ReadBlk(disk, sb.BlockSize(), sb.firstDataBlock as int + 1 + q)
    requires TableRead(raw, disk, sb)
    ensures TableRead(raw + blk, disk, sb)
  {
    hide DescAt, Mul, Div, Mod;
    var bsz := sb.BlockSize();
    forall g: nat | Mul(g, 32) + 32 <= |raw + blk| ensures DescAt(raw + blk, Mul(g, 32)) == DiskDesc(disk, sb, g) {
      DescFits(sb, g);
      var d := Div(Mul(g, 32), bsz);
      DivMod(Mul(g, 32), bsz);
      if d < q {
        MulMono(d + 1, q, bsz);
        MulAdd(d, 1, bsz);
        MulOne(bsz);
        DescLeft(raw, blk, Mul(g, 32));
        assert DescAt(raw, Mul(g, 32)) == DiskDesc(disk, sb, g);
      } else {
        if d > q {
          MulMono(q + 1, d, bsz);
          MulAdd(q, 1, bsz);
          MulOne(bsz);
        }
        DescRight(raw, blk, DescOffset(sb, g));
      }
    }
  }

  lemma DescLeft(a: Buf, b: Buf, o: nat)
    requires o + 32 <= |a|
    ensures DescAt(a + b, o) == DescAt(a, o)
  {
  }

  lemma DescRight(a: Buf, b: Buf, o: nat)
    requires o + 32 <= |b|
    ensures DescAt(a + b, |a| + o) == DescAt(b, o)
  {
  }

  /** BgDescTable::read: the blocks of the table are read and joined, then cut into entries. */
  method ReadTable(dev: array<Buf>, sb: Superblock) returns (table: seq<BgDesc>)
    requires OnDevice(dev[..], sb)
    ensures |table| == sb.NumGroups()
    ensures forall g :: 0 <= g < |table| ==> table[g] == DiskDesc(DiskOf(dev[..], sb), sb, g)
  {
    hide DiskOf, DescAt, Mul, CeilDiv, DiskDesc, Superblock.NumGroups;
    BlockSizeFacts(sb);
    var n, bsz := sb.NumGroups(), sb.BlockSize();
    ghost var disk := DiskOf(dev[..], sb);
    var blocks := CeilDiv(Mul(n, 32), bsz);
    var raw: Buf := [];
    var q := 0;
    MulOne(bsz);
    while q < blocks
      invariant 0 <= q <= blocks && |raw| == Mul(q, bsz) && TableRead(raw, disk, sb)
    {
      var blk := ReadSectors(dev, sb, sb.firstDataBlock as int + 1 + q);
      TableGrows(raw, blk, q, disk, sb);
      raw := raw + blk;
      MulAdd(q, 1, bsz);
      MulOne(bsz);
      q := q + 1;
    }
    CeilCovers(Mul(n, 32), bsz);
    table := [];
    var i := 0;
    while i < n
      invariant 0 <= i <= n && |table| == i
      invariant forall g :: 0 <= g < i ==> table[g] == DiskDesc(disk, sb, g)
    {
      MulMono(i + 1, n, 32);
      MulAdd(i, 1, 32);
      MulOne(32);
      assert DescAt(raw, Mul(i, 32)) == DiskDesc(disk, sb, i);
      table := table + [DescAt(raw, Mul(i, 32))];
      i := i + 1;
    }
  }

  /** mount: None exactly when the magic is wrong; otherwise the state on the volume. */
  method Mount(dev: array<Buf>) returns (r: Option<Ext2State>)
    requires Sectors(dev[..]) && dev.Length >= 4
    requires var s := ParseSuper(dev[2] + dev[3]); s.Some? ==> OnDevice(dev[..], s.value)
    ensures r.None? <==> ParseSuper(dev[2] + dev[3]).None?
    ensures r.Some? ==> fresh(r.value) && r.value.dev == dev && r.value.Valid()
    ensures r.Some? ==>
            r.value.sb.BlockSize() >= 2048 && Remount(r.value.St().disk, r.value.sb.BlockSize()) == Some(r.value.St())
  {
    hide U16At, U32At, DiskDesc, Superblock.NumGroups;
    var s := ParseSuper(dev[2] + dev[3]);
    if s.None? { return None; }
    var table := ReadTable(dev, s.value);
    var state := new Ext2State(dev, s.value, table);
    SuperOnDisk(dev[..], s.value);
    BlockSizeFacts(s.value);
    ghost var st := state.St();
    assert seq(st.sb.NumGroups(), g requires 0 <= g => DiskDesc(st.disk, st.sb, g)) == st.bgdt;
    r := Some(state);
  }

  lemma SuperOnDisk(s: seq<Buf>, sb: Superblock)
    requires OnDevice(s, sb)
    ensures |s| >= 4 && |DiskOf(s, sb)| > 0 && |DiskOf(s, sb)[0]| >= 2048
            && SuperAt(DiskOf(s, sb)[0]) == ParseSuper(s[2] + s[3])
  {
    hide ParseSuper, SuperAt, Superblock.NumGroups;
    SizesOf(sb);
    var spb := sb.SectorsPerBlock();
    MulOne(spb);
    BlockIs(s, spb, sb.blocksCount as int, 0);
    var b := DiskOf(s, sb)[0];
    SectorOf(s, spb, b, 2);
    SectorOf(s, spb, b, 3);
    assert b[1024..2048] == s[2] + s[3];
    ParseSuperIs(b);
  }
}
