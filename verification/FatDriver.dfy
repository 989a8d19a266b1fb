/** The FAT32 driver on its device (fs/src/fat32/mod.rs:113-156, 264-337, 520): sectors read, patched and
    written back in loops over table copies, clusters and sectors. */
module FatDriver {
  import opened Arith
  import opened Bytes
  import opened Sequences
  import opened FatTable
  import opened FatForest
  import opened FatFile

  class Fat32 {
    const b: Bpb
    const dev: array<Sector>

    constructor (b: Bpb, dev: array<Sector>)
      requires OnVolume(b, dev[..])
      ensures this.b == b && this.dev == dev
    {
      this.b, this.dev := b, dev;
    }

    /** fat_read_entry, on the first copy. */
    method ReadEntry(c: nat, ghost fat: Fat) returns (v: nat)
      requires FatIs(b, dev[..], fat) && c < |fat|
      ensures v == fat[c]
    {
      hide U32At;
      FatPlace(b, 0, c);
      assert Low(Raw(b, dev[..], 0, c)) == fat[c];
      v := Low(U32At(dev[FatSector(b, 0, c)], FatOffset(c)));
    }

    /** fat_write_entry. */
    method PutEntry(c: nat, v: nat, ghost fat: Fat)
      requires FatIs(b, dev[..], fat) && c < |fat| && v < Mask
      modifies dev
      ensures dev[..] == WriteEntry(b, old(dev[..]), c, v) && FatIs(b, dev[..], fat[c := v])
              && TopsKept(b, old(dev[..]), dev[..])
      ensures forall s :: b.DataStart() <= s < dev.Length ==> dev[s] == old(dev[..])[s]
    {
      hide PatchEntry, FatIs, OnVolume, TopsKept, Bpb.DataStart;
      ghost var was := dev[..];
      var n := 0;
      while n < b.fatCount
        invariant 0 <= n <= b.fatCount && dev[..] == WriteCopies(b, was, c, v, n)
      {
        var k := FatSector(b, n, c);
        if k < dev.Length { dev[k] := PatchEntry(dev[k], FatOffset(c), v); }
        n := n + 1;
      }
      WriteEntrySpec(b, was, fat, c, v);
    }

    /** fat_alloc_cluster. */
    method AllocCluster(ghost fat: Fat) returns (r: Option<nat>)
      requires FatIs(b, dev[..], fat)
      modifies dev
      ensures |fat| >= 2 && r == FatForest.FirstFree(fat, 2)
      ensures FatIs(b, dev[..], match r case None => fat case Some(c) => fat[c := Eoc])
              && TopsKept(b, old(dev[..]), dev[..])
      ensures forall s :: b.DataStart() <= s < dev.Length ==> dev[s] == old(dev[..])[s]
    {
      hide FatIs, TopsKept, Bpb.DataStart;
      TopsSelf(b, dev[..], fat);
      var max := MaxOf(fat);
      var c := 2;
      while c < max
        invariant 2 <= c <= max && dev[..] == old(dev[..])
        invariant FatForest.FirstFree(fat, c) == FatForest.FirstFree(fat, 2)
      {
        var v := ReadEntry(c, fat);
        if v == 0 {
          PutEntry(c, Eoc, fat);
          return Some(c);
        }
        c := c + 1;
      }
      r := None;
    }

    method MaxOf(ghost fat: Fat) returns (max: nat)
      requires FatIs(b, dev[..], fat)
      ensures max == |fat| >= 2
    {
      max := b.MaxCluster();
    }

    /** cluster_chain: ends because the chains of the table are acyclic. */
    method ClusterChain(first: nat, ghost fat: Fat, ghost f: Forest) returns (chain: seq<nat>)
      requires FatIs(b, dev[..], fat) && ForestOk(fat, f) && (first in f.chains || first < 2 || first >= Eoc)
      ensures chain == if first in f.chains then f.chains[first] else []
    {
      chain := [];
      if first < 2 || first >= Eoc {
        NoSuchChain(fat, f, first);
        return;
      }
      ghost var c := f.chains[first];
      var cur := first;
      var more := true;
      while more
        invariant |chain| <= |c| && chain == c[..|chain|] && (more ==> |chain| < |c| && cur == c[|chain|])
        invariant !more ==> chain == c
        decreases |c| - |chain|, more
      {
        ghost var i := |chain|;
        ChainLink(fat, c, i);
        chain := chain + [cur];
        assert c[..i + 1] == c[..i] + [c[i]];
        var next := ReadEntry(cur, fat);
        if next >= Eoc || next < 2 {
          more := false;
        } else {
          cur := next;
        }
      }
    }

    // ---------------------------------------------------------------- file contents

    /** One sector of file_read: file sector `k` is device sector `sec`, at file position `pos`. */
    method ReadSector(chain: seq<nat>, ghost k: nat, sec: nat, pos: nat, offset: nat, n: nat, buf: array<u8>,
        done: nat) returns (r: nat)
      requires InRange(b, chain) && b.totalSectors <= dev.Length && n <= buf.Length
      requires k < Cap(b, chain) && sec == FileSec(b, chain, k) < dev.Length && pos == 512 * k
               && done == Covered(offset, n, pos)
      requires Got(b, dev[..], chain, buf[..], offset, done)
      modifies buf
      ensures r == Covered(offset, n, pos + 512) <= buf.Length && Got(b, dev[..], chain, buf[..], offset, r)
      ensures buf[r..] == old(buf[..])[r..]
    {
      hide FileSec, Cap;
      if pos + 512 <= offset || pos >= offset + n { return done; }
      ghost var disk, was := dev[..], buf[..];
      var sector := dev[sec];
      var from := if pos < offset then offset - pos else 0;
      var to := Min(512, offset + n - pos);
      var at := pos + from - offset;
      forall j | 0 <= j < to - from { buf[at + j] := sector[from + j]; }
      assert dev[..] == disk;
      r := done + (to - from);
      forall j | 0 <= j < r
          ensures offset + j < 512 * Cap(b, chain) && buf[..][j] == ByteOf(b, dev[..], chain, offset + j) {
        if j >= done {
          assert (offset + j) / 512 == k && (offset + j) % 512 == from + (j - done);
        } else {
          assert buf[j] == was[j] && was[j] == ByteOf(b, disk, chain, offset + j);
        }
      }
    }

    /** The sectors of one cluster. */
    method ReadCluster(chain: seq<nat>, i: nat, pos: nat, offset: nat, n: nat, buf: array<u8>, done: nat)
        returns (r: nat)
      requires InRange(b, chain) && b.totalSectors <= dev.Length && n <= buf.Length
      requires i < |chain| && pos == 512 * Mul(i, b.spc) && done == Covered(offset, n, pos)
      requires Got(b, dev[..], chain, buf[..], offset, done)
      modifies buf
      ensures r == Covered(offset, n, pos + 512 * b.spc) <= buf.Length && Got(b, dev[..], chain, buf[..], offset, r)
      ensures buf[r..] == old(buf[..])[r..]
    {
      hide FileSec, Cap, Got, Bpb.Valid, Bpb.ClusterSector, Bpb.MaxCluster;
      var start := b.ClusterSector(chain[i]);
      r := done;
      var s := 0;
      while s < b.spc
        invariant 0 <= s <= b.spc && r == Covered(offset, n, pos + 512 * s) <= buf.Length
                  && Got(b, dev[..], chain, buf[..], offset, r)
        invariant buf[r..] == old(buf[..])[r..]
      {
        InCluster(b, chain, i, s);
        ghost var mid, was := buf[..], r;
        r := ReadSector(chain, Mul(i, b.spc) + s, start + s, pos + 512 * s, offset, n, buf, r);
        SameLater(mid, old(buf[..]), was, r);
        s := s + 1;
      }
    }

    /** file_read: the bytes of the file that lie in the chain. */
    method FileRead(first: nat, size: nat, offset: nat, buf: array<u8>, ghost fat: Fat, ghost f: Forest)
        returns (done: nat)
      requires FatIs(b, dev[..], fat) && ForestOk(fat, f) && first in f.chains && InRange(b, f.chains[first])
      modifies buf
      ensures done == (if offset >= size
              then 0 else Covered(offset, Min(buf.Length, size - offset), 512 * Cap(b, f.chains[first])))
      ensures done <= buf.Length && Got(b, dev[..], f.chains[first], buf[..], offset, done)
              && buf[done..] == old(buf[..])[done..]
    {
      hide FileSec, Cap, ByteOf, ForestOk, Bpb.MaxCluster;
      if offset >= size || buf.Length == 0 { return 0; }
      var n := Min(buf.Length, size - offset);
      var chain := ClusterChain(first, fat, f);
      done := 0;
      var pos, i := 0, 0;
      MulOne(b.spc);
      while i < |chain|
        invariant 0 <= i <= |chain| && pos == 512 * Mul(i, b.spc) && done == Covered(offset, n, pos) <= buf.Length
        invariant Got(b, dev[..], chain, buf[..], offset, done) && buf[done..] == old(buf[..])[done..]
      {
        ClusterEnd(b, chain, i);
        if pos >= offset + n { break; }
        if pos + 512 * b.spc > offset {
          done := ReadCluster(chain, i, pos, offset, n, buf, done);
        }
        pos := pos + 512 * b.spc;
        i := i + 1;
      }
      CapIs(b, chain);
    }

    /** One sector of file_write. */
    method WriteSector(sec: nat, pos: nat, offset: nat, data: Buf, done: nat) returns (r: nat)
      requires sec < dev.Length && done == Covered(offset, |data|, pos)
      modifies dev
      ensures r == Covered(offset, |data|, pos + 512)
      ensures dev[..] == old(dev[..])[sec := Patched(old(dev[..])[sec], pos, offset, data)]
    {
      hide Patched, Splice;
      PatchedIs(dev[sec], pos, offset, data);
      if pos + 512 <= offset || pos >= offset + |data| { return done; }
      var from := if pos < offset then offset - pos else 0;
      var to := Min(512, offset + |data| - pos);
      var at := pos + from - offset;
      dev[sec] := Splice(dev[sec], from, data[at..at + (to - from)]);
      r := done + (to - from);
    }

    /** The cluster and sector loops of file_write. */
    method WriteBody(chain: seq<nat>, offset: nat, data: Buf) returns (done: nat)
      requires InRange(b, chain) && NoDup(chain) && b.totalSectors <= dev.Length
      modifies dev
      ensures done == Covered(offset, |data|, 512 * Cap(b, chain))
      ensures Written(b, old(dev[..]), dev[..], chain, offset, data)
    {
      hide FileSec, Cap, Patched, Written, PartWritten, NoDup, InRange, Bpb.ClusterSector, Bpb.MaxCluster;
      ghost var was := dev[..];
      done := 0;
      var pos, i := 0, 0;
      MulOne(b.spc);
      PartNone(b, was, chain, offset, data);
      while i < |chain|
        invariant 0 <= i <= |chain| && pos == 512 * Mul(i, b.spc) && done == Covered(offset, |data|, pos)
        invariant PartWritten(b, was, dev[..], chain, offset, data, Mul(i, b.spc))
      {
        RangeFacts(b, chain, i);
        var start := b.ClusterSector(chain[i]);
        var s := 0;
        ClusterEnd(b, chain, i);
        while s < b.spc
          invariant 0 <= s <= b.spc && pos == 512 * (Mul(i, b.spc) + s) && done == Covered(offset, |data|, pos)
          invariant PartWritten(b, was, dev[..], chain, offset, data, Mul(i, b.spc) + s)
        {
          InCluster(b, chain, i, s);
          PartStep(b, was, dev[..], chain, offset, data, Mul(i, b.spc) + s);
          done := WriteSector(start + s, pos, offset, data, done);
          pos := pos + 512;
          s := s + 1;
        }
        i := i + 1;
      }
      CapIs(b, chain);
      PartAll(b, was, dev[..], chain, offset, data);
    }

    /** The growing loop of file_write: new clusters linked behind the last one. */
    method GrowChain(first: nat, start: seq<nat>, needed: nat, ghost fat: Fat, ghost f: Forest)
      returns (chain: seq<nat>, ghost fat2: Fat, ghost f2: Forest)
      requires FatIs(b, dev[..], fat) && ForestOk(fat, f) && first in f.chains && start == f.chains[first] && |fat| >= 2
      modifies dev
      ensures (fat2, f2) == Grow(fat, f, first, needed) && chain == f2.chains[first]
      ensures FatIs(b, dev[..], fat2) && ForestOk(fat2, f2) && TopsKept(b, old(dev[..]), dev[..])
      ensures forall s :: b.DataStart() <= s < dev.Length ==> dev[s] == old(dev[..])[s]
    {
      hide FatIs, ForestOk, TopsKept, Bpb.DataStart;
      ghost var was := dev[..];
      TopsSelf(b, was, fat);
      chain, fat2, f2 := start, fat, f;
      while |chain| < needed
        invariant FatIs(b, dev[..], fat2) && ForestOk(fat2, f2) && |fat2| == |fat| && first in f2.chains
                  && chain == f2.chains[first]
        invariant Grow(fat2, f2, first, needed) == Grow(fat, f, first, needed) && TopsKept(b, was, dev[..])
        invariant forall s :: b.DataStart() <= s < dev.Length ==> dev[s] == old(dev[..])[s]
        decreases needed - |chain|
      {
        ghost var x := dev[..];
        var c := AllocCluster(fat2);
        TopsTrans(b, was, x, dev[..]);
        if c.None? { break; }
        ghost var y := dev[..];
        GrowOnce(fat2, f2, first, c.value);
        TableSize(b, dev[..], fat2[c.value := Eoc]);
        PutEntry(Last(chain), c.value, fat2[c.value := Eoc]);
        TopsTrans(b, was, y, dev[..]);
        fat2, f2 := fat2[c.value := Eoc][Last(chain) := c.value], LinkForest(AllocForest(f2, c.value), first, c.value);
        chain := chain + [c.value];
      }
    }

    /** file_write. */
    method FileWrite(first: nat, size: u32, offset: nat, data: Buf, es: nat, eo: nat, ghost fat: Fat, ghost f: Forest,
        ghost dir: nat)
      returns (done: nat, ghost fat2: Fat, ghost f2: Forest)
      requires FatIs(b, dev[..], fat) && ForestOk(fat, f) && first in f.chains && dir != first
               && EntryIn(b, f, dir, es, eo)
      modifies dev
      ensures data == [] ==> done == 0 && dev[..] == old(dev[..]) && (fat2, f2) == (fat, f)
      ensures |fat| >= 2 && first in f2.chains && FatIs(b, dev[..], fat2) && ForestOk(fat2, f2)
              && TopsKept(b, old(dev[..]), dev[..])
      ensures data != [] ==> (fat2, f2) == Grow(fat, f, first, CeilDiv(offset + |data|, 512 * b.spc))
      ensures data != [] ==> done == Covered(offset, |data|, 512 * Cap(b, f2.chains[first]))
      ensures data != [] ==> Rewritten(b, old(dev[..]), dev[..], f2.chains[first], offset, data, es, eo, size)
    {
      hide FatIs, ForestOk, TopsKept, Written, Cap, ClusterOf, Grow, PutSize, Rewritten, Bpb.DataStart;
      TableSize(b, dev[..], fat);
      TopsSelf(b, dev[..], fat);
      if data == [] { return 0, fat, f; }
      ghost var was := dev[..];
      var end := offset + |data|;
      var chain := ClusterChain(first, fat, f);
      chain, fat2, f2 := GrowChain(first, chain, CeilDiv(end, 512 * b.spc), fat, f);
      ghost var grown := dev[..];
      ChainInRange(b, dev[..], fat2, f2, first);
      done := WriteBody(chain, offset, data);
      ghost var mid := dev[..];
      StillTable(b, grown, mid, fat2, chain, offset, data);
      if EntrySize(size, end) != size {
        dev[es] := PutU32(dev[es], eo + 28, EntrySize(size, end));
      }
      PutSizeIs(mid, es, eo, size, end);
      EntryElsewhere(b, mid, dev[..], fat2, es);
      TopsTrans(b, was, grown, mid);
      TopsTrans(b, was, mid, dev[..]);
      MidData(b, was, grown, mid, chain, offset, data, es, eo, size);
    }

    /** The loop of unlink over the chain of the removed file. */
    method FreeChain(first: nat, ghost fat: Fat, ghost f: Forest) returns (ghost fat2: Fat, ghost f2: Forest)
      requires FatIs(b, dev[..], fat) && ForestOk(fat, f) && first in f.chains
      modifies dev
      ensures fat2 == FreeAll(fat, f.chains[first], |f.chains[first]|) && f2 == FreeForest(f, first)
      ensures FatIs(b, dev[..], fat2) && ForestOk(fat2, f2) && TopsKept(b, old(dev[..]), dev[..])
      ensures forall s :: b.DataStart() <= s < dev.Length ==> dev[s] == old(dev[..])[s]
    {
      hide FatIs, ForestOk, TopsKept, Bpb.DataStart;
      ghost var was := dev[..];
      TopsSelf(b, was, fat);
      var chain := ClusterChain(first, fat, f);
      fat2 := fat;
      var i := 0;
      while i < |chain|
        invariant 0 <= i <= |chain| && fat2 == FreeAll(fat, chain, i) && FatIs(b, dev[..], fat2)
                  && TopsKept(b, was, dev[..])
        invariant forall s :: b.DataStart() <= s < dev.Length ==> dev[s] == old(dev[..])[s]
      {
        InTable(fat, f, first, i);
        ghost var x := dev[..];
        PutEntry(chain[i], 0, fat2);
        TopsTrans(b, was, x, dev[..]);
        fat2 := fat2[chain[i] := 0];
        i := i + 1;
      }
      FreeKeeps(fat, f, first);
      f2 := FreeForest(f, first);
    }
  }

  /** The sector at file position `pos` with the bytes of `data` that fall in it. */
  function Patched(s: Sector, pos: nat, offset: nat, data: Buf): (r: Sector)
    ensures forall o :: 0 <= o < 512 ==>
            r[o] == if offset <= pos + o < offset + |data| then data[pos + o - offset] else s[o]
  {
    seq(512, o requires 0 <= o < 512 => if offset <= pos + o < offset + |data| then data[pos + o - offset] else s[o])
  }

  lemma PatchedIs(s: Sector, pos: nat, offset: nat, data: Buf)
    ensures pos + 512 <= offset || pos >= offset + |data| ==> Patched(s, pos, offset, data) == s
    ensures pos + 512 > offset && pos < offset + |data| ==>
              var from := if pos < offset then offset - pos else 0;
              var to := Min(512, offset + |data| - pos);
              Patched(s, pos, offset, data) == Splice(s, from, data[pos + from - offset..pos + to - offset])
  {
  }

  /** The front of `s` is the file from `offset` on. */
  ghost predicate Got(b: Bpb, disk: seq<Sector>, chain: seq<nat>, s: Buf, offset: nat, n: nat)
    requires InRange(b, chain) && b.totalSectors <= |disk|
  {
    n <= |s| && forall j :: 0 <= j < n ==>
        offset + j < 512 * Cap(b, chain) && s[j] == ByteOf(b, disk, chain, offset + j)
  }

  /** What file_read returned of a file holding `bytes`. */
  lemma GotIsSlice(b: Bpb, disk: seq<Sector>, chain: seq<nat>, bytes: Buf, s: Buf, offset: nat, n: nat)
    requires Holds(b, disk, chain, bytes) && Got(b, disk, chain, s, offset, n) && offset + n <= |bytes|
    ensures s[..n] == bytes[offset..offset + n]
  {
    hide FileSec, Cap;
    forall j | 0 <= j < n ensures s[j] == bytes[offset + j] {
      assert ByteOf(b, disk, chain, offset + j) == bytes[offset + j];
    }
  }

  /** The first `k` sectors of the file written. */
  ghost predicate PartWritten(b: Bpb, was: seq<Sector>, now: seq<Sector>, chain: seq<nat>, offset: nat, data: Buf,
      k: nat) {
    && InRange(b, chain) && b.totalSectors <= |was| == |now|
    && (forall s :: 0 <= s < |was| && (s < b.DataStart() || ClusterOf(b, s) !in chain) ==> now[s] == was[s])
    && forall m {:trigger FileSec(b, chain, m)} :: 0 <= m < Cap(b, chain) && FileSec(b, chain, m) < |was| ==>
         now[FileSec(b, chain, m)] == if m < k
             then Patched(was[FileSec(b, chain, m)], 512 * m, offset, data) else was[FileSec(b, chain, m)]
  }

  lemma RangeFacts(b: Bpb, chain: seq<nat>, i: nat)
    requires InRange(b, chain) && i < |chain|
    ensures chain[i] >= 2
  {
  }

  lemma PartNone(b: Bpb, was: seq<Sector>, chain: seq<nat>, offset: nat, data: Buf)
    requires InRange(b, chain) && b.totalSectors <= |was|
    ensures PartWritten(b, was, was, chain, offset, data, 0)
  {
  }

  lemma PartStep(b: Bpb, was: seq<Sector>, now: seq<Sector>, chain: seq<nat>, offset: nat, data: Buf, k: nat)
    requires InRange(b, chain) && NoDup(chain) && k < Cap(b, chain) && PartWritten(b, was, now, chain, offset, data, k)
    ensures FileSec(b, chain, k) < |now|
    ensures PartWritten(b, was, now[FileSec(b, chain, k) := Patched(now[FileSec(b, chain, k)], 512 * k, offset, data)],
            chain, offset, data, k + 1)
  {
    hide FileSec, Cap, Patched, ClusterOf, Bpb.MaxCluster, NoDup;
    FileSecPlace(b, chain, k);
    var at := FileSec(b, chain, k);
    var then_ := now[at := Patched(now[at], 512 * k, offset, data)];
    forall m | 0 <= m < Cap(b, chain) && FileSec(b, chain, m) < |was|
      ensures then_[FileSec(b, chain, m)] == if m < k + 1
              then Patched(was[FileSec(b, chain, m)], 512 * m, offset, data) else was[FileSec(b, chain, m)]
    {
      if m != k { FileSecApart(b, chain, k, m); }
    }
  }

  lemma PartAll(b: Bpb, was: seq<Sector>, now: seq<Sector>, chain: seq<nat>, offset: nat, data: Buf)
    requires PartWritten(b, was, now, chain, offset, data, Cap(b, chain))
    ensures InRange(b, chain) && b.totalSectors <= |was| && Written(b, was, now, chain, offset, data)
  {
    hide FileSec, Cap, Patched, ClusterOf, Bpb.MaxCluster;
    forall p | 0 <= p < 512 * Cap(b, chain)
      ensures ByteOf(b, now, chain, p) == if offset <= p < offset + |data|
              then data[p - offset] else ByteOf(b, was, chain, p)
    {
      FileSecPlace(b, chain, p / 512);
      assert 512 * (p / 512) + p % 512 == p;
    }
  }

  lemma TopsSelf(b: Bpb, disk: seq<Sector>, fat: Fat)
    requires FatIs(b, disk, fat)
    ensures TopsKept(b, disk, disk)
  {
  }

  lemma TableSize(b: Bpb, disk: seq<Sector>, fat: Fat)
    requires FatIs(b, disk, fat)
    ensures 2 <= |fat| <= 0x0FFF_FFF7 && b.spc > 0 && b.totalSectors <= |disk|
  {
  }

  lemma InTable(fat: Fat, f: Forest, h: nat, i: nat)
    requires ForestOk(fat, f) && h in f.chains && i < |f.chains[h]|
    ensures f.chains[h][i] < |fat|
  {
    Facts(fat, f.chains[h]);
  }

  lemma ChainInRange(b: Bpb, disk: seq<Sector>, fat: Fat, f: Forest, h: nat)
    requires FatIs(b, disk, fat) && ForestOk(fat, f) && h in f.chains
    ensures InRange(b, f.chains[h]) && NoDup(f.chains[h]) && b.totalSectors <= |disk|
  {
    Facts(fat, f.chains[h]);
  }

  lemma StillTable(b: Bpb, grown: seq<Sector>, mid: seq<Sector>, fat: Fat, chain: seq<nat>, offset: nat, data: Buf)
    requires FatIs(b, grown, fat) && InRange(b, chain) && b.totalSectors <= |grown|
             && Written(b, grown, mid, chain, offset, data)
    ensures FatIs(b, mid, fat) && |mid| == |grown| && TopsKept(b, grown, mid)
  {
    hide Cap, ByteOf, ClusterOf;
    DataOnly(b, grown, mid, fat);
  }

  lemma PutSizeIs(mid: seq<Sector>, es: nat, eo: nat, size: u32, end: nat)
    requires es < |mid| && eo + 32 <= 512
    ensures PutSize(mid, es, eo, size, end) ==
            if EntrySize(size, end) == size then mid else mid[es := PutU32(mid[es], eo + 28, EntrySize(size, end))]
  {
  }

  lemma EntryElsewhere(b: Bpb, mid: seq<Sector>, now: seq<Sector>, fat: Fat, es: nat)
    requires FatIs(b, mid, fat) && |now| == |mid| && b.DataStart() <= es < |mid|
    requires forall s :: 0 <= s < |mid| && s != es ==> now[s] == mid[s]
    ensures FatIs(b, now, fat) && TopsKept(b, mid, now)
  {
    DataOnly(b, mid, now, fat);
  }

  lemma MidData(b: Bpb, was: seq<Sector>, grown: seq<Sector>, mid: seq<Sector>, chain: seq<nat>, offset: nat,
      data: Buf, es: nat, eo: nat, size: u32)
    requires InRange(b, chain) && b.totalSectors <= |grown| && Written(b, grown, mid, chain, offset, data)
    requires |was| == |grown| && (forall s :: b.DataStart() <= s < |was| ==> grown[s] == was[s]) && es < |was|
             && eo + 32 <= 512
    ensures |mid| == |was|
            && Rewritten(b, was, PutSize(mid, es, eo, size, offset + |data|), chain, offset, data, es, eo, size)
  {
    hide Cap, FileSec, PutSize, ClusterOf;
    forall p | 0 <= p < 512 * Cap(b, chain)
      ensures ByteOf(b, mid, chain, p) == if offset <= p < offset + |data|
              then data[p - offset] else ByteOf(b, was, chain, p)
    {
      FileSecPlace(b, chain, p / 512);
    }
    assert WrittenData(b, was, mid, chain, offset, data);
  }

  lemma SameLater(x: Buf, y: Buf, i: nat, j: nat)
    requires |x| == |y| && i <= j <= |x| && x[i..] == y[i..]
    ensures x[j..] == y[j..]
  {
    assert x[j..] == x[i..][j - i..] && y[j..] == y[i..][j - i..];
  }

  lemma InCluster(b: Bpb, chain: seq<nat>, i: nat, s: nat)
    requires InRange(b, chain) && i < |chain| && s < b.spc
    ensures Mul(i, b.spc) + s < Cap(b, chain)
    ensures b.ClusterSector(chain[i]) + s == FileSec(b, chain, Mul(i, b.spc) + s) < b.totalSectors
  {
    hide Mul, Div, Mod, Bpb.ClusterSector, Bpb.MaxCluster;
    MulMono(i + 1, |chain|, b.spc);
    MulAdd(i, 1, b.spc);
    MulOne(b.spc);
    DivModOf(i, b.spc, s);
    FileSecPlace(b, chain, Mul(i, b.spc) + s);
  }

  lemma ClusterEnd(b: Bpb, chain: seq<nat>, i: nat)
    requires i < |chain|
    ensures Mul(i + 1, b.spc) == Mul(i, b.spc) + b.spc <= Cap(b, chain)
  {
    MulMono(i + 1, |chain|, b.spc);
    MulAdd(i, 1, b.spc);
    MulOne(b.spc);
  }

  lemma CapIs(b: Bpb, chain: seq<nat>)
    ensures Cap(b, chain) == Mul(|chain|, b.spc)
  {
  }

  lemma NoSuchChain(fat: Fat, f: Forest, h: nat)
    requires ForestOk(fat, f) && (h < 2 || h >= Eoc)
    ensures h !in f.chains
  {
    forall k | k in f.chains ensures k != h {
      Facts(fat, f.chains[k]);
      assert f.chains[k][0] in f.chains[k];
    }
  }

  lemma ChainLink(fat: Fat, c: seq<nat>, i: nat)
    requires IsChain(fat, c) && i < |c| && |fat| <= Eoc
    ensures 2 <= c[i] < |fat|
    ensures if i == |c| - 1 then fat[c[i]] >= Eoc else fat[c[i]] == c[i + 1] && 2 <= fat[c[i]] < Eoc
  {
  }
}
