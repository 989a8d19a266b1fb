/** Files on a FAT32 volume (fs/src/fat32/mod.rs:264-337): the sectors of a chain taken in order are a
    flat byte sequence. */
module FatFile {
  import opened Arith
  import opened Bytes
  import opened Sequences
  import opened FatTable
  import opened FatForest

  /** Every copy of the table holds `fat` in its low 28 bits. */
  ghost predicate FatIs(b: Bpb, disk: seq<Sector>, fat: Fat) {
    && OnVolume(b, disk) && |fat| == b.MaxCluster()
    && forall n, c {:trigger Raw(b, disk, n, c)} :: 0 <= n < b.fatCount && 0 <= c < |fat| ==>
       Low(Raw(b, disk, n, c)) == fat[c]
  }

  /** Every entry of every copy keeps its top nibble. */
  ghost predicate TopsKept(b: Bpb, was: seq<Sector>, now: seq<Sector>) {
    && OnVolume(b, was) && OnVolume(b, now)
    && forall n, d {:trigger Raw(b, now, n, d)} :: 0 <= n < b.fatCount && 0 <= d < b.MaxCluster() ==>
       Top(Raw(b, now, n, d)) == Top(Raw(b, was, n, d))
  }

  lemma TopsTrans(b: Bpb, x: seq<Sector>, y: seq<Sector>, z: seq<Sector>)
    requires TopsKept(b, x, y) && TopsKept(b, y, z)
    ensures TopsKept(b, x, z)
  {
    hide Raw, Top, Bpb.MaxCluster;
    forall n, d | 0 <= n < b.fatCount && 0 <= d < b.MaxCluster() ensures Top(Raw(b, z, n, d)) == Top(Raw(b, x, n, d)) {
      assert Top(Raw(b, z, n, d)) == Top(Raw(b, y, n, d));
    }
  }

  /** fat_write_entry keeps the copies equal in their low 28 bits, each under its own top nibble, and
      leaves the data region alone. */
  lemma WriteEntrySpec(b: Bpb, disk: seq<Sector>, fat: Fat, c: nat, v: nat)
    requires FatIs(b, disk, fat) && c < |fat| && v < Mask
    ensures FatIs(b, WriteEntry(b, disk, c, v), fat[c := v])
    ensures TopsKept(b, disk, WriteEntry(b, disk, c, v))
    ensures forall s :: b.DataStart() <= s < |disk| ==> WriteEntry(b, disk, c, v)[s] == disk[s]
  {
    hide Raw, WriteCopies, Low, Top, Bpb.MaxCluster, Bpb.DataStart;
    var r := WriteEntry(b, disk, c, v);
    forall n, d | 0 <= n < b.fatCount && 0 <= d < |fat|
      ensures Low(Raw(b, r, n, d)) == fat[c := v][d] && Top(Raw(b, r, n, d)) == Top(Raw(b, disk, n, d))
    {
      WriteCopiesSpec(b, disk, c, v, b.fatCount, n, d);
    }
    forall s | b.DataStart() <= s < |disk| ensures r[s] == disk[s] {
      WriteCopiesOutside(b, disk, c, v, b.fatCount, s);
    }
  }

  // ---------------------------------------------------------------- sectors of a file

  /** The cluster a data sector belongs to. */
  function ClusterOf(b: Bpb, s: nat): nat
    requires b.spc > 0 && s >= b.DataStart()
  {
    Div(s - b.DataStart(), b.spc) + 2
  }

  lemma SectorPlace(b: Bpb, c: nat, i: nat)
    requires b.Valid() && 2 <= c < b.MaxCluster() && i < b.spc
    ensures b.DataStart() <= b.ClusterSector(c) + i < b.totalSectors
    ensures ClusterOf(b, b.ClusterSector(c) + i) == c
  {
    var room := b.totalSectors - b.DataStart();
    DivMod(room, b.spc);
    MulMono(c - 2 + 1, Div(room, b.spc), b.spc);
    MulAdd(c - 2, 1, b.spc);
    MulOne(b.spc);
    DivModOf(c - 2, b.spc, i);
  }

  ghost predicate InRange(b: Bpb, chain: seq<nat>) {
    b.Valid() && forall i :: 0 <= i < |chain| ==> 2 <= chain[i] < b.MaxCluster()
  }

  /** Number of sectors of a file with this chain. */
  function Cap(b: Bpb, chain: seq<nat>): nat { Mul(|chain|, b.spc) }

  lemma SecIndex(b: Bpb, chain: seq<nat>, k: nat)
    requires b.spc > 0 && k < Cap(b, chain)
    ensures Div(k, b.spc) < |chain| && Mod(k, b.spc) < b.spc
  {
    DivBelow(k, |chain|, b.spc);
  }

  /** Device sector of file sector `k`. */
  function FileSec(b: Bpb, chain: seq<nat>, k: nat): nat
    requires InRange(b, chain) && k < Cap(b, chain)
  {
    SecIndex(b, chain, k);
    b.ClusterSector(chain[Div(k, b.spc)]) + Mod(k, b.spc)
  }

  lemma FileSecPlace(b: Bpb, chain: seq<nat>, k: nat)
    requires InRange(b, chain) && k < Cap(b, chain)
    ensures b.DataStart() <= FileSec(b, chain, k) < b.totalSectors
    ensures ClusterOf(b, FileSec(b, chain, k)) in chain
  {
    SecIndex(b, chain, k);
    SectorPlace(b, chain[Div(k, b.spc)], Mod(k, b.spc));
  }

  /** Distinct file sectors are distinct device sectors. */
  lemma FileSecApart(b: Bpb, chain: seq<nat>, k: nat, m: nat)
    requires InRange(b, chain) && NoDup(chain) && k < Cap(b, chain) && m < Cap(b, chain) && k != m
    ensures FileSec(b, chain, k) != FileSec(b, chain, m)
  {
    SecIndex(b, chain, k);
    SecIndex(b, chain, m);
    var i, j := Div(k, b.spc), Div(m, b.spc);
    SectorPlace(b, chain[i], Mod(k, b.spc));
    SectorPlace(b, chain[j], Mod(m, b.spc));
    DivMod(k, b.spc);
    DivMod(m, b.spc);
    assert i < j ==> chain[i] != chain[j];
    assert j < i ==> chain[j] != chain[i];
  }

  function ByteOf(b: Bpb, disk: seq<Sector>, chain: seq<nat>, p: nat): u8
    requires InRange(b, chain) && b.totalSectors <= |disk| && p < 512 * Cap(b, chain)
  {
    FileSecPlace(b, chain, p / 512);
    disk[FileSec(b, chain, p / 512)][p % 512]
  }

  /** The file with this chain starts with `bytes`. */
  ghost predicate Holds(b: Bpb, disk: seq<Sector>, chain: seq<nat>, bytes: Buf) {
    && InRange(b, chain) && b.totalSectors <= |disk| && |bytes| <= 512 * Cap(b, chain)
    && forall p :: 0 <= p < |bytes| ==> ByteOf(b, disk, chain, p) == bytes[p]
  }

  /** How many of the `n` bytes at `offset` lie before position `pos`. */
  function Covered(offset: nat, n: nat, pos: nat): nat {
    Max(0, Min(pos, offset + n) - offset)
  }

  /** The sector loop of file_write: the bytes that fit are in place, nothing else changed. */
  ghost predicate Written(b: Bpb, was: seq<Sector>, now: seq<Sector>, chain: seq<nat>, offset: nat, data: Buf)
    requires InRange(b, chain) && b.totalSectors <= |was|
  {
    && |now| == |was|
    && (forall s :: 0 <= s < |was| && (s < b.DataStart() || ClusterOf(b, s) !in chain) ==> now[s] == was[s])
    && (forall p :: 0 <= p < 512 * Cap(b, chain) ==>
          ByteOf(b, now, chain, p) == if offset <= p < offset + |data|
              then data[p - offset] else ByteOf(b, was, chain, p))
  }

  /** A chain without clusters of `chain` keeps its contents. */
  lemma OthersHold(b: Bpb, was: seq<Sector>, now: seq<Sector>, chain: seq<nat>, other: seq<nat>, bytes: Buf)
    requires Holds(b, was, other, bytes) && |now| == |was|
    requires forall s :: 0 <= s < |was| && s >= b.DataStart() && ClusterOf(b, s) !in chain ==> now[s] == was[s]
    requires forall c :: c in other ==> c !in chain
    ensures Holds(b, now, other, bytes)
  {
    hide FileSec, Cap, ClusterOf;
    forall p | 0 <= p < |bytes| ensures ByteOf(b, now, other, p) == bytes[p] {
      FileSecPlace(b, other, p / 512);
      assert ByteOf(b, was, other, p) == bytes[p];
    }
  }

  /** A longer chain still starts with the same bytes. */
  lemma HoldsLonger(b: Bpb, disk: seq<Sector>, chain: seq<nat>, more: seq<nat>, bytes: Buf)
    requires Holds(b, disk, chain, bytes) && InRange(b, chain + more)
    ensures Holds(b, disk, chain + more, bytes)
  {
    hide Bpb.ClusterSector, Mul, Div, Mod;
    MulMono(|chain|, |chain + more|, b.spc);
    forall p | 0 <= p < |bytes| ensures ByteOf(b, disk, chain + more, p) == bytes[p] {
      SecIndex(b, chain, p / 512);
      assert (chain + more)[Div(p / 512, b.spc)] == chain[Div(p / 512, b.spc)];
      assert ByteOf(b, disk, chain, p) == bytes[p];
    }
  }

  // ---------------------------------------------------------------- file_write as a whole

  /** The table lies before the data region. */
  lemma DataOnly(b: Bpb, was: seq<Sector>, now: seq<Sector>, fat: Fat)
    requires FatIs(b, was, fat) && |now| == |was| && forall s :: 0 <= s < b.DataStart() ==> now[s] == was[s]
    ensures FatIs(b, now, fat) && TopsKept(b, was, now)
  {
    hide U32At, Bpb.MaxCluster, Low, Top;
    forall n, c | 0 <= n < b.fatCount && 0 <= c < |fat|
        ensures Raw(b, now, n, c) == Raw(b, was, n, c) && Low(Raw(b, now, n, c)) == fat[c] {
      FatPlace(b, n, c);
      assert Low(Raw(b, was, n, c)) == fat[c];
    }
  }

  /** Size field of the directory entry after a write that wants to end at `end`. */
  function EntrySize(size: u32, end: nat): u32 { Max(size as int, end) % 0x1_0000_0000 }

  /** Size kept in the open handle after `written` bytes went in (FatFileINode::write). */
  function HandleSize(size: u32, offset: nat, written: nat): u32 { Max(size as int, offset + written) % 0x1_0000_0000 }

  /** The last step of file_write: the size field is rewritten when it changes. */
  function PutSize(disk: seq<Sector>, es: nat, eo: nat, size: u32, end: nat): (r: seq<Sector>)
    requires es < |disk| && eo + 32 <= 512
    ensures |r| == |disk| && forall s :: 0 <= s < |disk| && s != es ==> r[s] == disk[s]
  {
    if EntrySize(size, end) == size then disk else disk[es := PutU32(disk[es], eo + 28, EntrySize(size, end))]
  }

  /** The directory entry at sector `es` lies in chain `dir`. */
  ghost predicate EntryIn(b: Bpb, f: Forest, dir: nat, es: nat, eo: nat) {
    dir in f.chains && b.spc > 0 && b.DataStart() <= es < b.totalSectors && ClusterOf(b, es) in f.chains[dir]
        && eo + 32 <= 512
  }

  /** What file_write leaves: the table grown, the data in place, the entry's size rewritten. */
  ghost predicate Rewritten(b: Bpb, was: seq<Sector>, now: seq<Sector>, chain: seq<nat>, offset: nat, data: Buf,
      es: nat, eo: nat, size: u32) {
    && InRange(b, chain) && b.totalSectors <= |was| && es < |was| && eo + 32 <= 512
    && exists mid ::
       |mid| == |was| && WrittenData(b, was, mid, chain, offset, data)
           && now == PutSize(mid, es, eo, size, offset + |data|)
  }

  /** `mid` has the data region of `was` with the bytes in place. */
  ghost predicate WrittenData(b: Bpb, was: seq<Sector>, mid: seq<Sector>, chain: seq<nat>, offset: nat, data: Buf)
    requires InRange(b, chain) && b.totalSectors <= |was|
  {
    && |mid| == |was|
    && (forall s :: b.DataStart() <= s < |was| && ClusterOf(b, s) !in chain ==> mid[s] == was[s])
    && (forall p :: 0 <= p < 512 * Cap(b, chain) ==>
          ByteOf(b, mid, chain, p) == if offset <= p < offset + |data|
              then data[p - offset] else ByteOf(b, was, chain, p))
  }

  lemma DisjointChains(fat: Fat, f: Forest, h: nat, k: nat)
    requires ForestOk(fat, f) && h in f.chains && k in f.chains && h != k
    ensures forall c :: c in f.chains[h] ==> c !in f.chains[k]
  {
    hide IsChain;
    forall c | c in f.chains[h] ensures c !in f.chains[k] { assert f.home[c] == Some(h); }
  }

  lemma SizeField(mid: seq<Sector>, es: nat, eo: nat, size: u32, end: nat)
    requires es < |mid| && eo + 32 <= 512
    ensures EntrySize(size, end) != size ==> U32At(PutSize(mid, es, eo, size, end)[es], eo + 28) == EntrySize(size, end)
  {
    hide U32At;
  }

  lemma OtherFiles(b: Bpb, was: seq<Sector>, mid: seq<Sector>, now: seq<Sector>, fat: Fat, f: Forest, first: nat,
      dir: nat, chain: seq<nat>,
                   offset: nat, data: Buf, es: nat, eo: nat)
    requires ForestOk(fat, f) && first in f.chains && EntryIn(b, f, dir, es, eo) && f.chains[first] == chain
    requires InRange(b, chain) && b.totalSectors <= |was| == |mid| == |now|
             && WrittenData(b, was, mid, chain, offset, data)
    requires forall s :: 0 <= s < |mid| && s != es ==> now[s] == mid[s]
    ensures forall k, other :: k in f.chains && k != first && k != dir && Holds(b, was, f.chains[k], other) ==>
            Holds(b, now, f.chains[k], other)
  {
    hide ClusterOf, ForestOk, WrittenData, Holds, InRange, Bpb.DataStart;
    forall k, other | k in f.chains && k != first && k != dir && Holds(b, was, f.chains[k], other)
      ensures Holds(b, now, f.chains[k], other)
    {
      DisjointChains(fat, f, k, first);
      DisjointChains(fat, f, dir, k);
      DataElsewhere(b, was, mid, chain, offset, data, f.chains[k], other);
      SizeElsewhere(b, mid, now, f.chains[dir], es, f.chains[k], other);
    }
  }

  lemma DataHolds(b: Bpb, was: seq<Sector>, mid: seq<Sector>, chain: seq<nat>, offset: nat, data: Buf, bytes: Buf)
    requires Holds(b, was, chain, bytes) && WrittenData(b, was, mid, chain, offset, data)
    requires offset <= |bytes| && offset + |data| <= 512 * Cap(b, chain)
    ensures Holds(b, mid, chain, Overwrite(bytes, offset, data))
  {
    hide ByteOf, Cap, ClusterOf, Overwrite;
    var r := Overwrite(bytes, offset, data);
    forall p | 0 <= p < |r| ensures ByteOf(b, mid, chain, p) == r[p] {
    }
  }

  lemma DataElsewhere(b: Bpb, was: seq<Sector>, mid: seq<Sector>, chain: seq<nat>, offset: nat, data: Buf,
      other: seq<nat>, bytes: Buf)
    requires InRange(b, chain) && b.totalSectors <= |was|
    requires Holds(b, was, other, bytes) && WrittenData(b, was, mid, chain, offset, data)
    requires forall c :: c in other ==> c !in chain
    ensures Holds(b, mid, other, bytes)
  {
    hide ByteOf, Cap, ClusterOf;
    OthersHold(b, was, mid, chain, other, bytes);
  }

  lemma SizeElsewhere(b: Bpb, mid: seq<Sector>, now: seq<Sector>, dirChain: seq<nat>, es: nat, chain: seq<nat>,
      bytes: Buf)
    requires Holds(b, mid, chain, bytes) && |now| == |mid| && b.DataStart() <= es < b.totalSectors
    requires forall s :: 0 <= s < |mid| && s != es ==> now[s] == mid[s]
    requires ClusterOf(b, es) in dirChain && forall c :: c in dirChain ==> c !in chain
    ensures Holds(b, now, chain, bytes)
  {
    hide ByteOf, Cap;
    forall s | b.DataStart() <= s < |mid| && ClusterOf(b, s) !in dirChain ensures now[s] == mid[s] {
      assert s != es;
    }
    OthersHold(b, mid, now, dirChain, chain, bytes);
  }

  lemma {:induction false} ClusterBytes(n: nat, spc: nat)
    ensures Mul(n, 512 * spc) == 512 * Mul(n, spc)
  {
    if n > 0 { ClusterBytes(n - 1, spc); }
  }

  /** file_write stores every byte exactly when the chain and the free clusters together suffice. */
  lemma WriteFits(b: Bpb, fat: Fat, f: Forest, first: nat, offset: nat, len: nat)
    requires ForestOk(fat, f) && first in f.chains && |fat| >= 2 && b.spc > 0 && len > 0
    ensures var needed := CeilDiv(offset + len, 512 * b.spc);
            var chain := Grow(fat, f, first, needed).1.chains[first];
            Covered(offset, len, 512 * Cap(b, chain)) == len <==> |f.chains[first]| + CountFree(fat, 2) >= needed
  {
    hide ForestOk, Grow, Grown, CountFree, CeilDiv, Covered;
    var needed := CeilDiv(offset + len, 512 * b.spc);
    var g := Grow(fat, f, first, needed).1;
    GrowSpec(fat, f, first, needed);
    GrownLength(fat, f, first, needed, g);
    ClustersSuffice(|g.chains[first]|, b.spc, offset, len);
  }

  lemma GrownLength(fat: Fat, f: Forest, h: nat, needed: nat, g: Forest)
    requires h in f.chains && |fat| >= 2 && Grown(fat, f, h, needed, g)
    ensures h in g.chains && |g.chains[h]| == Max(|f.chains[h]|, Min(needed, |f.chains[h]| + CountFree(fat, 2)))
  {
    hide CountFree;
  }

  lemma ClustersSuffice(n: nat, spc: nat, offset: nat, len: nat)
    requires spc > 0 && len > 0
    ensures Covered(offset, len, 512 * Mul(n, spc)) == len <==> n >= CeilDiv(offset + len, 512 * spc)
  {
    hide CeilDiv, Mul;
    var size := 512 * spc;
    var needed := CeilDiv(offset + len, size);
    ClusterBytes(n, spc);
    CeilCovers(offset + len, size);
    if n >= needed { MulMono(needed, n, size); } else { CeilLeast(offset + len, size, n); }
  }

  lemma CeilLeast(a: nat, n: nat, q: nat)
    requires n > 0 && q < CeilDiv(a, n)
    ensures Mul(q, n) < a
  {
    if Mul(q, n) >= a {
      DivMod(a + n - 1, n);
      MulMono(q + 1, Div(a + n - 1, n), n);
    }
  }

  /** Clusters a write of `len` bytes at `offset` wants the file to have. */
  function Wanted(b: Bpb, offset: nat, len: nat): nat
    requires b.spc > 0
  {
    CeilDiv(offset + len, 512 * b.spc)
  }

  /** The chain of the file and the free clusters together hold the bytes to be written. */
  ghost predicate Enough(b: Bpb, fat: Fat, f: Forest, first: nat, offset: nat, len: nat)
    requires first in f.chains && |fat| >= 2 && b.spc > 0
  {
    |f.chains[first]| + CountFree(fat, 2) >= Wanted(b, offset, len)
  }

  /** Bytes of a write that go in: those for which a cluster could be had. */
  ghost function Stored(b: Bpb, fat: Fat, f: Forest, first: nat, offset: nat, len: nat): nat
    requires ForestOk(fat, f) && first in f.chains && |fat| >= 2 && b.spc > 0
  {
    Covered(offset, len, 512 * Cap(b, Grow(fat, f, first, Wanted(b, offset, len)).1.chains[first]))
  }

  /** The entry on the volume and the open handle agree on the size exactly when the clusters suffice or the file need
      not grow: the entry is enlarged for the bytes asked for, even those no cluster was left for. */
  lemma SizesAgree(b: Bpb, fat: Fat, f: Forest, first: nat, size: u32, offset: nat, len: nat)
    requires ForestOk(fat, f) && first in f.chains && |fat| >= 2 && b.spc > 0 && len > 0 && offset + len < 0x1_0000_0000
    ensures EntrySize(size, offset + len) == HandleSize(size, offset, Stored(b, fat, f, first, offset, len))
            <==> Enough(b, fat, f, first, offset, len) || offset + len <= size as int
  {
    hide ForestOk, Grow, Cap, CountFree, CeilDiv;
    WriteFits(b, fat, f, first, offset, len);
  }

  /** file_write from the state before the call: the file holds `bytes` and the clusters suffice. Then all of the data
      is stored, the file with its grown chain holds the spliced bytes, every other file but the directory holds what
      it held under the chain it had, and entry, handle and contents agree on the new size. */
  lemma FileWriteLaw(b: Bpb, was: seq<Sector>, now: seq<Sector>, fat: Fat, f: Forest, first: nat, dir: nat,
                     offset: nat, data: Buf, es: nat, eo: nat, bytes: Buf, g: Forest)
    requires ForestOk(fat, f) && first in f.chains && |fat| >= 2 && dir != first && EntryIn(b, f, dir, es, eo)
             && data != []
    requires g == Grow(fat, f, first, Wanted(b, offset, |data|)).1 && Enough(b, fat, f, first, offset, |data|)
    requires |bytes| < 0x1_0000_0000 && offset <= |bytes| && offset + |data| < 0x1_0000_0000
    requires Holds(b, was, f.chains[first], bytes)
             && Rewritten(b, was, now, g.chains[first], offset, data, es, eo, |bytes|)
    ensures Stored(b, fat, f, first, offset, |data|) == |data|
    ensures Holds(b, now, g.chains[first], Overwrite(bytes, offset, data))
    ensures |Overwrite(bytes, offset, data)| == HandleSize(|bytes|, offset, |data|) as int
    ensures U32At(was[es], eo + 28) as int == |bytes| ==>
            U32At(now[es], eo + 28) as int == |Overwrite(bytes, offset, data)|
    ensures forall k, other :: k in f.chains && k != first && k != dir && Holds(b, was, f.chains[k], other) ==>
              k in g.chains && g.chains[k] == f.chains[k] && Holds(b, now, g.chains[k], other)
  {
    hide ForestOk, Grow, Grown, Cap, CountFree, CeilDiv, Covered, Holds, InRange, Rewritten, U32At, Overwrite,
         Bpb.Valid, ClusterOf, EntrySize, HandleSize, Stored, Enough, Bpb.DataStart;
    AllStored(b, fat, f, first, offset, |data|);
    StoredLaw(b, was, now, fat, f, first, dir, offset, data, es, eo, |bytes|, bytes, g);
    assert data[..|data|] == data;
    EntryLaw(b, was, now, fat, f, first, dir, offset, data, es, eo, |bytes|, g);
    SameSizes(bytes, offset, data);
  }

  lemma AllStored(b: Bpb, fat: Fat, f: Forest, first: nat, offset: nat, len: nat)
    requires ForestOk(fat, f) && first in f.chains && |fat| >= 2 && b.spc > 0 && len > 0
    ensures Stored(b, fat, f, first, offset, len) == len <==> Enough(b, fat, f, first, offset, len)
  {
    hide ForestOk, Grow, Cap, CountFree, CeilDiv;
    WriteFits(b, fat, f, first, offset, len);
  }

  /** The entry has the new size when it had the old one. */
  lemma EntryLaw(b: Bpb, was: seq<Sector>, now: seq<Sector>, fat: Fat, f: Forest, first: nat, dir: nat,
                 offset: nat, data: Buf, es: nat, eo: nat, size: u32, g: Forest)
    requires ForestOk(fat, f) && first in f.chains && |fat| >= 2 && dir != first && EntryIn(b, f, dir, es, eo)
    requires g == Grow(fat, f, first, Wanted(b, offset, |data|)).1
    requires Rewritten(b, was, now, g.chains[first], offset, data, es, eo, size)
    ensures es < |was| == |now| && eo + 32 <= 512
    ensures U32At(was[es], eo + 28) == size ==> U32At(now[es], eo + 28) == EntrySize(size, offset + |data|)
  {
    hide ForestOk, Grow, Grown, Cap, CountFree, CeilDiv, Holds, InRange, Rewritten, U32At, Bpb.Valid, ClusterOf,
         EntrySize, Bpb.DataStart;
    var needed := Wanted(b, offset, |data|);
    GrowSpec(fat, f, first, needed);
    GrownFacts(fat, f, first, needed, g);
    RewrittenRange(b, was, now, g.chains[first], offset, data, es, eo, size);
    KeptSize(b, was, now, Grow(fat, f, first, needed).0, g, first, dir, offset, data, es, eo, size);
  }

  lemma SameSizes(bytes: Buf, offset: nat, data: Buf)
    requires |bytes| < 0x1_0000_0000 && offset <= |bytes| && offset + |data| < 0x1_0000_0000
    ensures |Overwrite(bytes, offset, data)| == HandleSize(|bytes|, offset, |data|) as int
    ensures HandleSize(|bytes|, offset, |data|) == EntrySize(|bytes|, offset + |data|)
  {
  }

  lemma AllFit(offset: nat, len: nat, room: nat)
    requires len > 0 && Covered(offset, len, room) == len
    ensures offset + len <= room
  {
  }

  /** Whether the clusters suffice or not: the file is spliced with the bytes that were stored, and every other file
      keeps its chain and its bytes. */
  lemma StoredLaw(b: Bpb, was: seq<Sector>, now: seq<Sector>, fat: Fat, f: Forest, first: nat, dir: nat,
                  offset: nat, data: Buf, es: nat, eo: nat, size: u32, bytes: Buf, g: Forest)
    requires ForestOk(fat, f) && first in f.chains && |fat| >= 2 && dir != first && EntryIn(b, f, dir, es, eo)
             && data != []
    requires g == Grow(fat, f, first, Wanted(b, offset, |data|)).1
    requires Rewritten(b, was, now, g.chains[first], offset, data, es, eo, size)
    ensures Stored(b, fat, f, first, offset, |data|) <= |data|
    ensures Holds(b, was, f.chains[first], bytes) && offset <= |bytes| ==>
            Holds(b, now, g.chains[first], Overwrite(bytes, offset, data[..Stored(b, fat, f, first, offset, |data|)]))
    ensures forall k, other :: k in f.chains && k != first && k != dir && Holds(b, was, f.chains[k], other) ==>
              k in g.chains && g.chains[k] == f.chains[k] && Holds(b, now, g.chains[k], other)
  {
    hide ForestOk, Grow, Grown, Cap, CountFree, CeilDiv, Covered, Holds, InRange, WrittenData, U32At, Overwrite,
         Bpb.Valid, ClusterOf, PutSize;
    var needed := Wanted(b, offset, |data|);
    var fat2 := Grow(fat, f, first, needed).0;
    GrowSpec(fat, f, first, needed);
    GrownFacts(fat, f, first, needed, g);
    var chain, longer := f.chains[first], g.chains[first];
    var mid :| |mid| == |was| && WrittenData(b, was, mid, longer, offset, data)
        && now == PutSize(mid, es, eo, size, offset + |data|);
    OtherFiles(b, was, mid, now, fat2, g, first, dir, longer, offset, data, es, eo);
    Clipped(b, was, mid, longer, offset, data);
    if Holds(b, was, chain, bytes) && offset <= |bytes| {
      assert longer == chain + longer[|chain|..];
      HoldsLonger(b, was, chain, longer[|chain|..], bytes);
      var part := data[..Covered(offset, |data|, 512 * Cap(b, longer))];
      HoldsRoom(b, was, longer, bytes);
      DataHolds(b, was, mid, longer, offset, part, bytes);
      DisjointChains(fat2, g, dir, first);
      SizeElsewhere(b, mid, now, g.chains[dir], es, longer, Overwrite(bytes, offset, part));
    }
  }

  /** Only the bytes that fit are in place. */
  lemma Clipped(b: Bpb, was: seq<Sector>, mid: seq<Sector>, chain: seq<nat>, offset: nat, data: Buf)
    requires InRange(b, chain) && b.totalSectors <= |was| && WrittenData(b, was, mid, chain, offset, data)
    ensures var done := Covered(offset, |data|, 512 * Cap(b, chain));
            && done <= |data| && (offset <= 512 * Cap(b, chain) ==> offset + done <= 512 * Cap(b, chain))
            && WrittenData(b, was, mid, chain, offset, data[..done])
  {
    hide ByteOf, Cap, ClusterOf;
  }

  lemma HoldsRoom(b: Bpb, disk: seq<Sector>, chain: seq<nat>, bytes: Buf)
    requires Holds(b, disk, chain, bytes)
    ensures |bytes| <= 512 * Cap(b, chain)
  {
    hide ByteOf, Cap;
  }

  lemma GrownFacts(fat: Fat, f: Forest, h: nat, needed: nat, g: Forest)
    requires h in f.chains && |fat| >= 2 && Grown(fat, f, h, needed, g)
    ensures h in g.chains && f.chains[h] <= g.chains[h]
    ensures forall k :: k in f.chains && k != h ==> k in g.chains && g.chains[k] == f.chains[k]
  {
    hide CountFree;
  }

  lemma RewrittenRange(b: Bpb, was: seq<Sector>, now: seq<Sector>, chain: seq<nat>, offset: nat, data: Buf, es: nat,
      eo: nat, size: u32)
    requires Rewritten(b, was, now, chain, offset, data, es, eo, size)
    ensures InRange(b, chain) && es < |was| == |now| && eo + 32 <= 512
  {
    hide WrittenData, PutSize;
  }

  /** A size field that need not change is not touched. */
  lemma KeptSize(b: Bpb, was: seq<Sector>, now: seq<Sector>, fat: Fat, f: Forest, first: nat, dir: nat,
                 offset: nat, data: Buf, es: nat, eo: nat, size: u32)
    requires ForestOk(fat, f) && first in f.chains && dir != first && EntryIn(b, f, dir, es, eo)
    requires Rewritten(b, was, now, f.chains[first], offset, data, es, eo, size) && es < |was| == |now|
    ensures EntrySize(size, offset + |data|) == size ==> now[es] == was[es]
    ensures EntrySize(size, offset + |data|) != size ==> U32At(now[es], eo + 28) == EntrySize(size, offset + |data|)
  {
    hide ForestOk, InRange, WrittenData, U32At, Bpb.Valid, PutSize, ClusterOf, EntrySize;
    DisjointChains(fat, f, dir, first);
    var chain := f.chains[first];
    var mid :| |mid| == |was| && WrittenData(b, was, mid, chain, offset, data)
        && now == PutSize(mid, es, eo, size, offset + |data|);
    MidEntry(b, was, mid, chain, offset, data, es);
    SizeField(mid, es, eo, size, offset + |data|);
    SameSize(mid, es, eo, size, offset + |data|);
  }

  lemma MidEntry(b: Bpb, was: seq<Sector>, mid: seq<Sector>, chain: seq<nat>, offset: nat, data: Buf, es: nat)
    requires InRange(b, chain) && b.totalSectors <= |was| && WrittenData(b, was, mid, chain, offset, data)
    requires b.DataStart() <= es < |was| && ClusterOf(b, es) !in chain
    ensures mid[es] == was[es]
  {
    hide ByteOf, Cap, ClusterOf;
  }

  lemma SameSize(mid: seq<Sector>, es: nat, eo: nat, size: u32, end: nat)
    requires es < |mid| && eo + 32 <= 512
    ensures EntrySize(size, end) == size ==> PutSize(mid, es, eo, size, end) == mid
  {
  }

  /** A table with no free cluster: a file of one full cluster is appended to, nothing goes in, and the entry says 513
      bytes where the handle says 512. */
  lemma SizesDiffer()
    ensures var b := Bpb(1, 1, 1, 4, 1, 2);
            var fat := [Eoc, Eoc, Eoc, Eoc];
            var f := Forest(map[2 := [2], 3 := [3]], [None, None, Some(2), Some(3)]);
            && b.Valid() && |fat| == b.MaxCluster() && ForestOk(fat, f) && !Enough(b, fat, f, 3, 512, 1)
            && EntrySize(512, 513) == 513 && HandleSize(512, 512, Stored(b, fat, f, 3, 512, 1)) == 512
  {
    hide ForestOk, Grow, CeilDiv, CountFree, Bpb.Valid, Bpb.MaxCluster;
    var b := Bpb(1, 1, 1, 4, 1, 2);
    var fat := [Eoc, Eoc, Eoc, Eoc];
    var f := Forest(map[2 := [2], 3 := [3]], [None, None, Some(2), Some(3)]);
    SmallVolume(b);
    SmallForest(fat, f);
    NoneFree(fat);
    assert Wanted(b, 512, 1) == 2 by {
      assert Mul(0, 512) == 0 && Mul(1, 512) == 512 && Mul(2, 512) == 1024;
      CeilOf(513, 512, 2);
    }
    NoGrowth(fat, f, 3, 2);
    MulOne(1);
  }

  lemma NoneFree(fat: Fat)
    requires fat == [Eoc, Eoc, Eoc, Eoc]
    ensures CountFree(fat, 2) == 0 && FirstFree(fat, 2) == None
  {
    assert CountFree(fat, 4) == 0 && CountFree(fat, 3) == 0;
  }

  lemma NoGrowth(fat: Fat, f: Forest, h: nat, needed: nat)
    requires ForestOk(fat, f) && h in f.chains && |fat| >= 2 && FirstFree(fat, 2).None?
    ensures Grow(fat, f, h, needed) == (fat, f)
  {
    hide ForestOk, FirstFree;
  }

  lemma SmallVolume(b: Bpb)
    requires b == Bpb(1, 1, 1, 4, 1, 2)
    ensures b.Valid() && b.MaxCluster() == 4
  {
    MulOne(1);
    NativeDivMod(2, 1);
  }

  lemma SmallForest(fat: Fat, f: Forest)
    requires fat == [Eoc, Eoc, Eoc, Eoc] && f == Forest(map[2 := [2], 3 := [3]], [None, None, Some(2), Some(3)])
    ensures ForestOk(fat, f)
  {
    Single(fat, 2);
    Single(fat, 3);
  }
}
