/** The FAT32 volume geometry and the file allocation table, kept in several copies on the device
    (fs/src/fat32/mod.rs:55-144). */
module FatTable {
  import opened Arith
  import opened Bytes

  /** The fields of the boot sector the driver uses. */
  datatype Bpb = Bpb(spc: nat, reserved: nat, fatCount: nat, totalSectors: nat, spf: nat, root: nat)
  {
    function DataStart(): nat { reserved + Mul(fatCount, spf) }

    function MaxCluster(): nat
      requires spc > 0 && DataStart() <= totalSectors
    {
      Div(totalSectors - DataStart(), spc) + 2
    }

    /** First sector of a cluster; clusters are numbered from 2. */
    function ClusterSector(c: nat): nat
      requires c >= 2
    {
      DataStart() + Mul(c - 2, spc)
    }

    /** Volumes whose table has an entry for every cluster and whose cluster numbers are below the
        end-of-chain marks. */
    ghost predicate Valid() {
      && 0 < spc < 256 && 0 < fatCount < 256 && 0 < spf && 0 < reserved && DataStart() <= totalSectors
      && MaxCluster() <= 128 * spf && MaxCluster() <= 0x0FFF_FFF7
    }
  }

  const Eoc: nat := 0x0FFF_FFF8
  const Mask: nat := 0x1000_0000

  ghost predicate OnVolume(b: Bpb, disk: seq<Sector>) {
    b.Valid() && b.totalSectors <= |disk|
  }

  /** Sector and offset of the entry of cluster `c` in copy `n`: 128 entries a sector. */
  function FatSector(b: Bpb, n: nat, c: nat): nat { b.reserved + Mul(n, b.spf) + c / 128 }

  function FatOffset(c: nat): (r: nat)
    ensures r + 4 <= 512
  {
    4 * (c % 128)
  }

  lemma FatPlace(b: Bpb, n: nat, c: nat)
    requires b.Valid() && n < b.fatCount && c < b.MaxCluster()
    ensures Mul(n, b.spf) + b.spf <= Mul(b.fatCount, b.spf)
    ensures b.reserved <= FatSector(b, n, c) < b.DataStart()
  {
    MulMono(n + 1, b.fatCount, b.spf);
  }

  /** Copies do not overlap, and neither do entries of one copy. */
  lemma FatApart(b: Bpb, n: nat, c: nat, m: nat, d: nat)
    requires b.Valid() && n < b.fatCount && m < b.fatCount && c < b.MaxCluster() && d < b.MaxCluster()
    requires FatSector(b, n, c) == FatSector(b, m, d)
    ensures n == m && (c != d ==> FatOffset(c) + 4 <= FatOffset(d) || FatOffset(d) + 4 <= FatOffset(c))
  {
    if n < m { MulMono(n + 1, m, b.spf); }
    if m < n { MulMono(m + 1, n, b.spf); }
  }

  ghost function Raw(b: Bpb, disk: seq<Sector>, n: nat, c: nat): u32
    requires OnVolume(b, disk) && n < b.fatCount && c < b.MaxCluster()
  {
    FatPlace(b, n, c);
    U32At(disk[FatSector(b, n, c)], FatOffset(c))
  }

  /** The low 28 bits of an entry. */
  function Low(x: u32): nat { x % Mask }

  function Top(x: u32): nat { x / Mask }

  /** fat_write_entry on one sector: three bytes replaced, the high nibble of the fourth kept. */
  function PatchEntry(s: Sector, o: nat, v: nat): (r: Sector)
    requires o + 4 <= 512 && v < Mask
    ensures Low(U32At(r, o)) == v && Top(U32At(r, o)) == Top(U32At(s, o))
    ensures forall i :: 0 <= i < 512 && !(o <= i < o + 4) ==> r[i] == s[i]
  {
    var w := U32Bytes(v);
    var r: Buf := s[o := w[0]][o + 1 := w[1]][o + 2 := w[2]][o + 3 := s[o + 3] / 16 * 16 + w[3]];
    EntryNibbles(s, o, v);
    assert U32At(r, o) == U32At(s, o) / Mask * Mask + v;
    r
  }

  lemma EntryNibbles(s: Sector, o: nat, v: nat)
    requires o + 4 <= 512 && v < Mask
    ensures U32Bytes(v)[3] < 16
    ensures s[o + 3] as int / 16 * 0x1000_0000 == U32At(s, o) as int / Mask * Mask
    ensures U32At(s, o) / Mask == s[o + 3] / 16
  {
    var x := U32At(s, o) as int;
    var hi := s[o + 3] as int;
    assert x == (hi / 16) * 0x1000_0000 + (hi % 16) * 0x100_0000 + s[o] as int + 0x100 * (s[o + 1] as int)
           + 0x1_0000 * (s[o + 2] as int);
  }

  /** The first `n` copies written. */
  function WriteCopies(b: Bpb, disk: seq<Sector>, c: nat, v: nat, n: nat): (r: seq<Sector>)
    requires v < Mask
    ensures |r| == |disk|
  {
    if n == 0 then disk
    else
      var d := WriteCopies(b, disk, c, v, n - 1);
      var k := FatSector(b, n - 1, c);
      if k < |d| then d[k := PatchEntry(d[k], FatOffset(c), v)] else d
  }

  /** fat_write_entry: every copy. */
  function WriteEntry(b: Bpb, disk: seq<Sector>, c: nat, v: nat): (r: seq<Sector>)
    requires v < Mask
    ensures |r| == |disk|
  {
    WriteCopies(b, disk, c, v, b.fatCount)
  }

  /** Written copies hold the new low bits under their own high nibble; everything else is unchanged. */
  lemma {:induction false} WriteCopiesSpec(b: Bpb, disk: seq<Sector>, c: nat, v: nat, n: nat, m: nat, d: nat)
    requires OnVolume(b, disk) && c < b.MaxCluster() && d < b.MaxCluster() && v < Mask && n <= b.fatCount
             && m < b.fatCount
    ensures var r := WriteCopies(b, disk, c, v, n);
            && Top(Raw(b, r, m, d)) == Top(Raw(b, disk, m, d))
            && Low(Raw(b, r, m, d)) == if d == c && m < n then v else Low(Raw(b, disk, m, d))
    decreases n
  {
    hide PatchEntry, U32At, Low, Top, Bpb.MaxCluster, Bpb.DataStart, Mul, Div, FatSector, FatOffset;
    if n > 0 {
      WriteCopiesSpec(b, disk, c, v, n - 1, m, d);
      var a := WriteCopies(b, disk, c, v, n - 1);
      var r := WriteCopies(b, disk, c, v, n);
      FatPlace(b, n - 1, c);
      FatPlace(b, m, d);
      var k := FatSector(b, n - 1, c);
      assert r == a[k := PatchEntry(a[k], FatOffset(c), v)];
      if FatSector(b, m, d) == k {
        FatApart(b, n - 1, c, m, d);
        if c != d { SameEntry(r[k], a[k], FatOffset(d)); }
      }
    }
  }

  lemma SameEntry(a: Sector, b: Sector, o: nat)
    requires o + 4 <= 512 && forall i :: o <= i < o + 4 ==> a[i] == b[i]
    ensures U32At(a, o) == U32At(b, o)
  {
  }

  lemma {:induction false} WriteCopiesOutside(b: Bpb, disk: seq<Sector>, c: nat, v: nat, n: nat, s: nat)
    requires OnVolume(b, disk) && c < b.MaxCluster() && v < Mask && n <= b.fatCount && s < |disk|
    requires s < b.reserved || b.DataStart() <= s
    ensures WriteCopies(b, disk, c, v, n)[s] == disk[s]
    decreases n
  {
    hide PatchEntry, U32At, Bpb.MaxCluster, Mul, Div, FatSector, FatOffset;
    if n > 0 {
      FatPlace(b, n - 1, c);
      WriteCopiesOutside(b, disk, c, v, n - 1, s);
    }
  }
}
