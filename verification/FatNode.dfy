/** An open file of the FAT32 driver (fs/src/fat32/mod.rs:544-565): the handle keeps its own copy of the size that the
    directory entry on the device also holds. */
module FatNode {
  import opened Arith
  import opened Bytes
  import opened Sequences
  import opened FatTable
  import opened FatForest
  import opened FatFile
  import opened FatDriver

  /** The size field of the directory entry. */
  ghost function EntryAt(disk: seq<Sector>, es: nat, eo: nat): u32
    requires es < |disk| && eo + 32 <= 512
  {
    U32At(disk[es], eo + 28)
  }

  /** The file holds `bytes`, and handle and entry have its size. */
  ghost predicate Keeps(b: Bpb, disk: seq<Sector>, chain: seq<nat>, es: nat, eo: nat, size: u32, bytes: Buf) {
    Holds(b, disk, chain, bytes) && |bytes| == size as int && es < |disk| && eo + 32 <= 512
        && EntryAt(disk, es, eo) == size
  }

  class FatFileNode {
    const fs: Fat32
    const first: nat
    var size: u32
    const es: nat
    const eo: nat

    constructor (fs: Fat32, first: nat, size: u32, es: nat, eo: nat)
      ensures this.fs == fs && this.first == first && this.size == size && this.es == es && this.eo == eo
    {
      this.fs, this.first, this.size, this.es, this.eo := fs, first, size, es, eo;
    }

    /** The table is the forest `f`, with the file's chain and, in another chain, its directory entry. */
    ghost predicate Valid(fat: Fat, f: Forest, dir: nat)
      reads this, fs.dev
    {
      FatIs(fs.b, fs.dev[..], fat) && ForestOk(fat, f) && first in f.chains && dir != first
          && EntryIn(fs.b, f, dir, es, eo)
    }

    /** The file holds `bytes`. */
    ghost predicate Has(fat: Fat, f: Forest, dir: nat, bytes: Buf)
      reads this, fs.dev
    {
      Valid(fat, f, dir) && Keeps(fs.b, fs.dev[..], f.chains[first], es, eo, size, bytes)
    }

    /** FatFileINode::read: the slice of the file, clipped at its end. */
    method Read(offset: nat, buf: array<u8>, ghost fat: Fat, ghost f: Forest, ghost dir: nat, ghost bytes: Buf)
        returns (done: nat)
      requires Has(fat, f, dir, bytes)
      modifies buf
      ensures Has(fat, f, dir, bytes) && done <= buf.Length && buf[done..] == old(buf[..])[done..]
      ensures buf[..done] == if offset >= |bytes| then [] else bytes[offset..Min(offset + buf.Length, |bytes|)]
    {
      hide FatIs, ForestOk, Cap, U32At, EntryIn, InRange;
      ghost var chain := f.chains[first];
      ChainInRange(fs.b, fs.dev[..], fat, f, first);
      ghost var disk := fs.dev[..];
      done := fs.FileRead(first, size as int, offset, buf, fat, f);
      if offset < |bytes| {
        ReadAll(offset, Min(buf.Length, size as int - offset), 512 * Cap(fs.b, chain), |bytes|);
        GotIsSlice(fs.b, disk, chain, bytes, buf[..], offset, done);
      }
    }

    /** FatFileINode::write. The bytes stored are those a cluster could be had for; the file is spliced with them, and
        other files keep their chains and contents. A file whose clusters suffice keeps one size; in general entry and
        handle agree afterwards exactly when the clusters suffice or the file need not grow. */
    method Write(offset: nat, data: Buf, ghost fat: Fat, ghost f: Forest, ghost dir: nat, ghost bytes: Buf)
      returns (done: nat, ghost fat2: Fat, ghost f2: Forest)
      requires Valid(fat, f, dir) && offset + |data| < 0x1_0000_0000
      modifies fs.dev, this`size
      ensures Valid(fat2, f2, dir) && |fat| >= 2 && fs.b.spc > 0 && size == HandleSize(old(size), offset, done)
      ensures data == [] ==> done == 0 && fs.dev[..] == old(fs.dev[..]) && (fat2, f2) == (fat, f)
      ensures data != [] ==> done == Stored(fs.b, fat, f, first, offset, |data|)
      ensures es < fs.dev.Length && eo + 32 <= 512
      ensures EntryAt(old(fs.dev[..]), es, eo) == old(size) && data != [] ==>
                (EntryAt(fs.dev[..], es, eo) == size <==>
                    Enough(fs.b, fat, f, first, offset, |data|) || offset + |data| <= old(size) as int)
      ensures EntryAt(old(fs.dev[..]), es, eo) == old(size) && data == [] ==>
                (EntryAt(fs.dev[..], es, eo) == size <==> offset <= old(size) as int)
      ensures done <= |data|
      ensures old(Holds(fs.b, fs.dev[..], f.chains[first], bytes)) && offset <= |bytes| ==>
                Holds(fs.b, fs.dev[..], f2.chains[first], Overwrite(bytes, offset, data[..done]))
      ensures old(Has(fat, f, dir, bytes)) && offset <= |bytes| && Enough(fs.b, fat, f, first, offset, |data|) ==>
                done == |data| && Has(fat2, f2, dir, Overwrite(bytes, offset, data))
      ensures forall k, other ::
                k in f.chains && k != first && k != dir && Holds(fs.b, old(fs.dev[..]), f.chains[k], other) ==>
                  k in f2.chains && f2.chains[k] == f.chains[k] && Holds(fs.b, fs.dev[..], f2.chains[k], other)
    {
      hide FatIs, ForestOk, Grow, Cap, U32At, EntryIn, Holds, Rewritten, Overwrite, CeilDiv, CountFree;
      ghost var was, before := fs.dev[..], size;
      EntryFacts(fs.b, was, fat, f, dir, es, eo);
      done, fat2, f2 := fs.FileWrite(first, size, offset, data, es, eo, fat, f, dir);
      size := HandleSize(size, offset, done);
      if data == [] {
        NothingWritten(bytes, offset, data);
        assert data[..0] == data;
      } else {
        AfterWrite(fs.b, was, fs.dev[..], fat, f, first, dir, offset, data, es, eo, before, bytes, f2);
      }
    }

    /** What was written is what is read back. */
    method WriteThenRead(offset: nat, data: array<u8>, ghost fat: Fat, ghost f: Forest, ghost dir: nat,
        ghost bytes: Buf, buf: array<u8>)
      returns (done: nat, ghost fat2: Fat, ghost f2: Forest)
      requires Has(fat, f, dir, bytes) && offset <= |bytes| && offset + data.Length < 0x1_0000_0000 && |fat| >= 2
               && fs.b.spc > 0
      requires Enough(fs.b, fat, f, first, offset, data.Length) && buf != data && buf.Length == data.Length
      modifies fs.dev, this`size, buf
      ensures Has(fat2, f2, dir, Overwrite(bytes, offset, data[..])) && done == data.Length && buf[..] == data[..]
    {
      hide Valid, Keeps, Enough, Holds;
      var n;
      n, fat2, f2 := Write(offset, data[..], fat, f, dir, bytes);
      done := Read(offset, buf, fat2, f2, dir, Overwrite(bytes, offset, data[..]));
      Spliced(bytes, offset, data[..]);
      assert buf[..] == buf[..done];
    }
  }

  lemma Spliced(bytes: Buf, offset: nat, data: Buf)
    requires offset <= |bytes|
    ensures var r := Overwrite(bytes, offset, data); offset + |data| <= |r| && r[offset..offset + |data|] == data
  {
  }

  lemma ReadAll(offset: nat, n: nat, room: nat, size: nat)
    requires offset + n <= size <= room
    ensures Covered(offset, n, room) == n
  {
  }

  lemma EntryFacts(b: Bpb, disk: seq<Sector>, fat: Fat, f: Forest, dir: nat, es: nat, eo: nat)
    requires FatIs(b, disk, fat) && EntryIn(b, f, dir, es, eo)
    ensures es < |disk| && eo + 32 <= 512 && b.spc > 0 && dir in f.chains
  {
  }

  lemma NothingWritten(bytes: Buf, offset: nat, data: Buf)
    requires data == []
    ensures offset <= |bytes| ==> Overwrite(bytes, offset, data) == bytes
  {
  }

  /** What Rewritten means for the handle, on a write that is not empty. */
  lemma AfterWrite(b: Bpb, was: seq<Sector>, now: seq<Sector>, fat: Fat, f: Forest, first: nat, dir: nat,
                   offset: nat, data: Buf, es: nat, eo: nat, size: u32, bytes: Buf, g: Forest)
    requires ForestOk(fat, f) && first in f.chains && |fat| >= 2 && dir != first && EntryIn(b, f, dir, es, eo)
             && data != []
    requires g == Grow(fat, f, first, Wanted(b, offset, |data|)).1 && offset + |data| < 0x1_0000_0000
    requires Rewritten(b, was, now, g.chains[first], offset, data, es, eo, size)
    ensures es < |was| == |now| && eo + 32 <= 512 && EntryIn(b, g, dir, es, eo)
    ensures var done := Stored(b, fat, f, first, offset, |data|);
            var enough := Enough(b, fat, f, first, offset, |data|);
            && (EntryAt(was, es, eo) == size ==>
                  (EntryAt(now, es, eo) == HandleSize(size, offset, done) <==>
                      enough || offset + |data| <= size as int))
            && (Keeps(b, was, f.chains[first], es, eo, size, bytes) && offset <= |bytes| && enough ==>
                  && done == |data|
                  && Keeps(b, now, g.chains[first], es, eo, HandleSize(size, offset, done),
                        Overwrite(bytes, offset, data)))
            && done <= |data|
            && (Holds(b, was, f.chains[first], bytes) && offset <= |bytes| ==>
                  Holds(b, now, g.chains[first], Overwrite(bytes, offset, data[..done])))
            && forall k, other :: k in f.chains && k != first && k != dir && Holds(b, was, f.chains[k], other) ==>
                 k in g.chains && g.chains[k] == f.chains[k] && Holds(b, now, g.chains[k], other)
  {
    hide ForestOk, Grow, Grown, Cap, CountFree, CeilDiv, Covered, Holds, InRange, Rewritten, U32At, Overwrite,
         Bpb.Valid, ClusterOf, Stored;
    var needed := Wanted(b, offset, |data|);
    GrowSpec(fat, f, first, needed);
    GrownFacts(fat, f, first, needed, g);
    RewrittenRange(b, was, now, g.chains[first], offset, data, es, eo, size);
    KeptSize(b, was, now, Grow(fat, f, first, needed).0, g, first, dir, offset, data, es, eo, size);
    SizesAgree(b, fat, f, first, size, offset, |data|);
    StoredLaw(b, was, now, fat, f, first, dir, offset, data, es, eo, size, bytes, g);
    if Keeps(b, was, f.chains[first], es, eo, size, bytes) && offset <= |bytes|
        && Enough(b, fat, f, first, offset, |data|) {
      FileWriteLaw(b, was, now, fat, f, first, dir, offset, data, es, eo, bytes, g);
    }
  }
}
