/** The directory code of the FAT32 driver on its device (fs/src/fat32/mod.rs:210-258, 343-433, 516-531):
    loops over the clusters, sectors and 32-byte slots of a directory. */
module FatDirDriver {
  import opened Arith
  import opened Bytes
  import opened Sequences
  import opened FatTable
  import opened FatForest
  import opened FatFile
  import opened FatDriver
  import opened FatDir
  import opened FatNames

  function SlotIn(s: Sector, x: nat): Slot
    requires x < 16
  {
    s[32 * x..32 * x + 32]
  }

  lemma SlotSector(b: Bpb, chain: seq<nat>, j: nat)
    requires InRange(b, chain) && j < 16 * Cap(b, chain)
    ensures j / 16 < Cap(b, chain) && FileSec(b, chain, j / 16) < b.totalSectors
  {
    FileSecPlace(b, chain, j / 16);
  }

  /** The directory with this chain as slots, sixteen a sector. */
  ghost function Slots(b: Bpb, disk: seq<Sector>, chain: seq<nat>): (r: seq<Slot>)
    requires InRange(b, chain) && b.totalSectors <= |disk|
    ensures |r| == 16 * Cap(b, chain)
  {
    seq(16 * Cap(b, chain), j requires 0 <= j < 16 * Cap(b, chain) =>
      SlotSector(b, chain, j);
      SlotIn(disk[FileSec(b, chain, j / 16)], j % 16))
  }

  lemma SlotIs(b: Bpb, disk: seq<Sector>, chain: seq<nat>, k: nat, x: nat)
    requires InRange(b, chain) && b.totalSectors <= |disk| && k < Cap(b, chain) && x < 16
    ensures FileSec(b, chain, k) < |disk| && Slots(b, disk, chain)[16 * k + x] == SlotIn(disk[FileSec(b, chain, k)], x)
  {
    SlotSector(b, chain, 16 * k + x);
    assert (16 * k + x) / 16 == k && (16 * k + x) % 16 == x;
  }

  ghost predicate SectorSlots(slots: seq<Slot>, k: nat, s: Sector)
    requires 16 * k + 16 <= |slots|
  {
    forall x {:trigger SlotIn(s, x)} :: 0 <= x < 16 ==> slots[16 * k + x] == SlotIn(s, x)
  }

  lemma SectorSlotsIs(b: Bpb, disk: seq<Sector>, chain: seq<nat>, k: nat)
    requires InRange(b, chain) && b.totalSectors <= |disk| && k < Cap(b, chain)
    ensures FileSec(b, chain, k) < |disk| && SectorSlots(Slots(b, disk, chain), k, disk[FileSec(b, chain, k)])
  {
    hide FileSec, Cap, Slots;
    FileSecPlace(b, chain, k);
    forall x | 0 <= x < 16
        ensures Slots(b, disk, chain)[16 * k + x] == SlotIn(disk[FileSec(b, chain, k)], x) {
                SlotIs(b, disk, chain, k, x); }
  }

  /** The sixteen slots of one sector: what is listed so far, the pending name, whether the directory ended. */
  method ScanSector(s: Sector, ghost slots: seq<Slot>, k: nat, st0: Scan, acc0: seq<DirEntry>)
      returns (acc: seq<DirEntry>, st: Scan, ended: bool)
    requires 16 * k + 16 <= |slots| && SectorSlots(slots, k, s)
    ensures ended ==> acc == acc0 + EntriesFrom(slots, 16 * k, st0)
    ensures !ended ==> acc + EntriesFrom(slots, 16 * k + 16, st) == acc0 + EntriesFrom(slots, 16 * k, st0)
  {
    hide ReadSlot, SlotIn;
    acc, st, ended := acc0, st0, false;
    var x := 0;
    while x < 16
      invariant 0 <= x <= 16 && !ended
      invariant acc + EntriesFrom(slots, 16 * k + x, st) == acc0 + EntriesFrom(slots, 16 * k, st0)
    {
      var raw := SlotIn(s, x);
      if raw[0] == 0 { return acc, st, true; }
      var (st2, e) := ReadSlot(raw, 16 * k + x, st);
      assert EntriesFrom(slots, 16 * k + x, st) == Opt(e) + EntriesFrom(slots, 16 * k + x + 1, st2);
      acc, st := acc + Opt(e), st2;
      x := x + 1;
    }
  }

  /** The sectors of one cluster. */
  method ScanCluster(fs: Fat32, chain: seq<nat>, i: nat, st0: Scan, acc0: seq<DirEntry>)
      returns (acc: seq<DirEntry>, st: Scan, ended: bool)
    requires InRange(fs.b, chain) && fs.b.totalSectors <= fs.dev.Length && i < |chain|
             && 16 * Mul(i + 1, fs.b.spc) <= 16 * Cap(fs.b, chain)
    requires Mul(i + 1, fs.b.spc) == Mul(i, fs.b.spc) + fs.b.spc
    ensures var slots := Slots(fs.b, fs.dev[..], chain);
            acc + (if ended then [] else EntriesFrom(slots, 16 * Mul(i + 1, fs.b.spc), st)) == acc0
                + EntriesFrom(slots, 16 * Mul(i, fs.b.spc), st0)
  {
    hide EntriesFrom, Slots, FileSec, Cap, Bpb.ClusterSector, Bpb.MaxCluster, SectorSlots, Mul;
    var b := fs.b;
    ghost var slots := Slots(b, fs.dev[..], chain);
    ghost var all := acc0 + EntriesFrom(slots, 16 * Mul(i, b.spc), st0);
    var start := b.ClusterSector(chain[i]);
    acc, st, ended := acc0, st0, false;
    var s := 0;
    while s < b.spc
      invariant 0 <= s <= b.spc && !ended
      invariant acc + EntriesFrom(slots, 16 * (Mul(i, b.spc) + s), st) == all
    {
      InCluster(b, chain, i, s);
      SectorSlotsIs(b, fs.dev[..], chain, Mul(i, b.spc) + s);
      acc, st, ended := ScanSector(fs.dev[start + s], slots, Mul(i, b.spc) + s, st, acc);
      if ended { return; }
      s := s + 1;
    }
  }

  /** read_dir_entries. */
  method ReadDirEntries(fs: Fat32, first: nat, ghost fat: Fat, ghost f: Forest) returns (acc: seq<DirEntry>)
    requires FatIs(fs.b, fs.dev[..], fat) && ForestOk(fat, f) && first in f.chains && InRange(fs.b, f.chains[first])
    ensures fs.b.totalSectors <= fs.dev.Length
            && acc == EntriesFrom(Slots(fs.b, fs.dev[..], f.chains[first]), 0, NoScan)
  {
    hide EntriesFrom, Slots, FileSec, Cap, FatIs, ForestOk, InRange, Mul;
    var b := fs.b;
    TableSize(b, fs.dev[..], fat);
    var chain := fs.ClusterChain(first, fat, f);
    ghost var slots := Slots(b, fs.dev[..], chain);
    var st := NoScan;
    acc := [];
    var i := 0;
    MulOne(b.spc);
    while i < |chain|
      invariant 0 <= i <= |chain| && Mul(i, b.spc) <= Cap(b, chain)
      invariant acc + EntriesFrom(slots, 16 * Mul(i, b.spc), st) == EntriesFrom(slots, 0, NoScan)
    {
      ClusterEnd(b, chain, i);
      var ended;
      acc, st, ended := ScanCluster(fs, chain, i, st, acc);
      if ended { return; }
      i := i + 1;
    }
    CapIs(b, chain);
    AtEnd(slots, st);
  }

  lemma AtEnd(slots: seq<Slot>, st: Scan)
    ensures EntriesFrom(slots, |slots|, st) == []
  {
  }

  /** find_entry_in_dir. */
  method FindEntry(fs: Fat32, first: nat, name: Name, ghost fat: Fat, ghost f: Forest) returns (r: Option<DirEntry>)
    requires FatIs(fs.b, fs.dev[..], fat) && ForestOk(fat, f) && first in f.chains && InRange(fs.b, f.chains[first])
    ensures fs.b.totalSectors <= fs.dev.Length && r == Lookup(Slots(fs.b, fs.dev[..], f.chains[first]), name)
  {
    hide EntriesFrom, Slots, SameName;
    var es := ReadDirEntries(fs, first, fat, f);
    var i := 0;
    while i < |es|
      invariant 0 <= i <= |es| && FindIn(es[i..], name) == FindIn(es, name)
    {
      assert es[i..][1..] == es[i + 1..];
      if SameName(es[i].name, name) { return Some(es[i]); }
      i := i + 1;
    }
    r := None;
  }

  // ---------------------------------------------------------------- writing slots

  /** write_dir_entry changes one slot. */
  lemma SlotWritten(b: Bpb, was: seq<Sector>, chain: seq<nat>, j: nat, slot: Slot)
    requires InRange(b, chain) && NoDup(chain) && b.totalSectors <= |was| && j < 16 * Cap(b, chain)
    ensures FileSec(b, chain, j / 16) < |was|
    ensures var s := FileSec(b, chain, j / 16);
            Slots(b, was[s := Splice(was[s], 32 * (j % 16), slot)], chain) == Slots(b, was, chain)[j := slot]
  {
    hide FileSec, Cap, Splice, InRange, NoDup;
    SlotSector(b, chain, j);
    var s := FileSec(b, chain, j / 16);
    var now := was[s := Splice(was[s], 32 * (j % 16), slot)];
    var old_, new_ := Slots(b, was, chain), Slots(b, now, chain);
    forall i | 0 <= i < |old_| ensures new_[i] == old_[j := slot][i] {
      SlotSector(b, chain, i);
      if i / 16 == j / 16 {
        SliceOf(was[s], 32 * (j % 16), slot, i % 16, j % 16);
      } else {
        FileSecApart(b, chain, i / 16, j / 16);
      }
    }
  }

  lemma SliceOf(s: Sector, o: nat, slot: Slot, x: nat, y: nat)
    requires x < 16 && y < 16 && o == 32 * y
    ensures SlotIn(Splice(s, o, slot), x) == if x == y then slot else SlotIn(s, x)
  {
  }

  /** After file_write the directory lists the file with the new size, and all else as before. */
  lemma WriteListed(b: Bpb, was: seq<Sector>, now: seq<Sector>, fat: Fat, f: Forest, first: nat, dir: nat, offset: nat,
                    data: Buf, j: nat, size: u32, name: Name)
    requires ForestOk(fat, f) && first in f.chains && dir in f.chains && dir != first
    requires InRange(b, f.chains[dir]) && b.totalSectors <= |was| == |now| && j < 16 * Cap(b, f.chains[dir])
    requires Rewritten(b, was, now, f.chains[first], offset, data, FileSec(b, f.chains[dir], j / 16), 32 * (j % 16),
                 size)
    requires var raw := Slots(b, was, f.chains[dir])[j]; raw[11] != AttrLfn && U32At(raw, 28) == size
    ensures Lookup(Slots(b, now, f.chains[dir]), name) ==
            match Lookup(Slots(b, was, f.chains[dir]), name)
            case None => None
            case Some(e) => Some(ResizedOne(e, j, EntrySize(size, offset + |data|)))
  {
    hide ForestOk, InRange, WrittenData, U32At, PutU32, PutSize, FileSec, Cap, Slots, Lookup, EntrySize, ResizedOne,
         ClusterOf;
    var chain, es, eo := f.chains[dir], FileSec(b, f.chains[dir], j / 16), 32 * (j % 16);
    var mid :| |mid| == |was| && WrittenData(b, was, mid, f.chains[first], offset, data)
               && now == PutSize(mid, es, eo, size, offset + |data|);
    DisjointChains(fat, f, dir, first);
    ChainNoDup(fat, f, dir);
    KeptSlots(b, was, mid, chain, f.chains[first], offset, data);
    SizeSlot(b, mid, chain, j, size, offset + |data|);
    LookupResized(Slots(b, was, chain), j, EntrySize(size, offset + |data|), name);
  }

  lemma ChainNoDup(fat: Fat, f: Forest, h: nat)
    requires ForestOk(fat, f) && h in f.chains
    ensures NoDup(f.chains[h])
  {
  }

  /** Data written to another chain leaves the slots alone. */
  lemma KeptSlots(b: Bpb, was: seq<Sector>, mid: seq<Sector>, chain: seq<nat>, other: seq<nat>, offset: nat, data: Buf)
    requires InRange(b, chain) && InRange(b, other) && b.totalSectors <= |was|
             && WrittenData(b, was, mid, other, offset, data)
    requires forall c :: c in chain ==> c !in other
    ensures |mid| == |was| && Slots(b, mid, chain) == Slots(b, was, chain)
  {
    hide FileSec, Cap, SlotIn, ClusterOf, ByteOf;
    forall j | 0 <= j < 16 * Cap(b, chain) ensures Slots(b, mid, chain)[j] == Slots(b, was, chain)[j] {
      SlotSector(b, chain, j);
      FileSecPlace(b, chain, j / 16);
    }
  }

  /** The rewritten size field is that of slot `j`. */
  lemma SizeSlot(b: Bpb, mid: seq<Sector>, chain: seq<nat>, j: nat, size: u32, end: nat)
    requires InRange(b, chain) && NoDup(chain) && b.totalSectors <= |mid| && j < 16 * Cap(b, chain)
             && U32At(Slots(b, mid, chain)[j], 28) == size
    ensures FileSec(b, chain, j / 16) < |mid|
    ensures Slots(b, PutSize(mid, FileSec(b, chain, j / 16), 32 * (j % 16), size, end), chain) ==
            Slots(b, mid, chain)[j := PutU32(Slots(b, mid, chain)[j], 28, EntrySize(size, end))]
  {
    hide U32At, PutU32, FileSec, Cap, EntrySize, Splice;
    SlotSector(b, chain, j);
    var s, x, v := FileSec(b, chain, j / 16), j % 16, EntrySize(size, end);
    var raw := Slots(b, mid, chain)[j];
    if v == size {
      PutSame(raw, 28, v);
    } else {
      PutIsSplice(mid[s], x, v);
      SlotWritten(b, mid, chain, j, PutU32(raw, 28, v));
    }
  }

  lemma PutSame(raw: Buf, o: nat, v: u32)
    requires o + 4 <= |raw| && U32At(raw, o) == v
    ensures PutU32(raw, o, v) == raw
  {
    hide U32At, U32Bytes;
    U32Restores(raw, o);
  }

  lemma PutIsSplice(s: Sector, x: nat, v: u32)
    requires x < 16
    ensures PutU32(s, 32 * x + 28, v) == Splice(s, 32 * x, PutU32(SlotIn(s, x), 28, v))
  {
  }

  /** The sixteen slots of one sector in the search for `needed` free ones in a row. */
  method SearchSector(s: Sector, ghost slots: seq<Slot>, k: nat, run0: nat, needed: nat)
      returns (r: Option<nat>, run: nat)
    requires 16 * k + 16 <= |slots| && SectorSlots(slots, k, s) && run0 <= 16 * k && run0 < needed
    ensures r.Some? ==> r == FindRun(slots, 16 * k, run0, needed)
    ensures r.None? ==>
            run <= 16 * k + 16 && run < needed
                && FindRun(slots, 16 * k + 16, run, needed) == FindRun(slots, 16 * k, run0, needed)
  {
    hide SlotIn;
    run := run0;
    var x := 0;
    while x < 16
      invariant 0 <= x <= 16 && run <= 16 * k + x && run < needed
      invariant FindRun(slots, 16 * k + x, run, needed) == FindRun(slots, 16 * k, run0, needed)
    {
      var raw := SlotIn(s, x);
      if IsFree(raw) {
        if run + 1 >= needed { return Some(16 * k + x - run), run; }
        run := run + 1;
      } else {
        run := 0;
      }
      x := x + 1;
    }
    r := None;
  }

  /** find_free_dir_slots over the clusters the directory has. */
  method FindSlots(fs: Fat32, chain: seq<nat>, needed: nat) returns (r: Option<nat>)
    requires InRange(fs.b, chain) && fs.b.totalSectors <= fs.dev.Length && needed > 0
    ensures r == FindRun(Slots(fs.b, fs.dev[..], chain), 0, 0, needed)
  {
    hide FindRun, Slots, FileSec, Cap, Bpb.ClusterSector, Bpb.MaxCluster, SectorSlots;
    var b := fs.b;
    ghost var slots := Slots(b, fs.dev[..], chain);
    var run: nat, i: nat := 0, 0;
    MulOne(b.spc);
    while i < |chain|
      invariant 0 <= i <= |chain| && run <= 16 * Mul(i, b.spc) <= |slots| && run < needed
      invariant FindRun(slots, 16 * Mul(i, b.spc), run, needed) == FindRun(slots, 0, 0, needed)
    {
      var start := b.ClusterSector(chain[i]);
      ClusterEnd(b, chain, i);
      var s := 0;
      while s < b.spc
        invariant 0 <= s <= b.spc && run <= 16 * (Mul(i, b.spc) + s) <= |slots| && run < needed
        invariant FindRun(slots, 16 * (Mul(i, b.spc) + s), run, needed) == FindRun(slots, 0, 0, needed)
      {
        InCluster(b, chain, i, s);
        SectorSlotsIs(b, fs.dev[..], chain, Mul(i, b.spc) + s);
        r, run := SearchSector(fs.dev[start + s], slots, Mul(i, b.spc) + s, run, needed);
        if r.Some? { return; }
        s := s + 1;
      }
      i := i + 1;
    }
    CapIs(b, chain);
    SearchedAll(slots, run, needed);
    r := None;
  }

  lemma SearchedAll(slots: seq<Slot>, run: nat, needed: nat)
    requires run <= |slots| && run < needed
    ensures FindRun(slots, |slots|, run, needed) == None
  {
  }

  /** Sector and offset of slot `j`. */
  ghost predicate PlaceIs(b: Bpb, chain: seq<nat>, j: nat, sector: nat, offset: nat) {
    InRange(b, chain) && j < 16 * Cap(b, chain) && sector == FileSec(b, chain, j / 16) && offset == 32 * (j % 16)
  }

  /** Slots `i` to `k` lie in consecutive device sectors, as advance_dir_slot takes for granted. */
  ghost predicate Consecutive(b: Bpb, chain: seq<nat>, i: nat, k: nat) {
    && InRange(b, chain) && i <= k < 16 * Cap(b, chain)
    && forall m {:trigger FileSec(b, chain, m)} :: i / 16 <= m < k / 16 ==>
       FileSec(b, chain, m + 1) == FileSec(b, chain, m) + 1
  }

  /** advance_dir_slot. */
  function Advance(sector: nat, offset: nat): (nat, nat) {
    if offset + 32 >= 512 then (sector + 1, 0) else (sector, offset + 32)
  }

  lemma AdvanceIs(b: Bpb, chain: seq<nat>, i: nat, j: nat, k: nat, sector: nat, offset: nat)
    requires Consecutive(b, chain, i, k) && i <= j < k && PlaceIs(b, chain, j, sector, offset)
    ensures PlaceIs(b, chain, j + 1, Advance(sector, offset).0, Advance(sector, offset).1)
  {
    hide FileSec, Cap;
    if j % 16 == 15 {
      assert (j + 1) / 16 == j / 16 + 1 && (j + 1) % 16 == 0;
      assert FileSec(b, chain, j / 16 + 1) == FileSec(b, chain, j / 16) + 1;
    } else {
      assert (j + 1) / 16 == j / 16 && (j + 1) % 16 == j % 16 + 1;
    }
  }

  ghost predicate TableKept(b: Bpb, was: seq<Sector>, now: seq<Sector>) {
    |now| == |was| && forall s :: 0 <= s < |was| && s < b.DataStart() ==> now[s] == was[s]
  }

  /** Of the data region only sectors of this chain's clusters may have changed. */
  ghost predicate OnlyChain(b: Bpb, was: seq<Sector>, now: seq<Sector>, chain: seq<nat>)
    requires b.spc > 0
  {
    |now| == |was| && forall s :: b.DataStart() <= s < |was| && ClusterOf(b, s) !in chain ==> now[s] == was[s]
  }

  lemma SameAll(b: Bpb, disk: seq<Sector>, chain: seq<nat>)
    requires b.spc > 0
    ensures TableKept(b, disk, disk) && OnlyChain(b, disk, disk, chain)
  {
  }

  lemma KeptTrans(b: Bpb, x: seq<Sector>, y: seq<Sector>, z: seq<Sector>, chain: seq<nat>)
    requires b.spc > 0 && TableKept(b, x, y) && TableKept(b, y, z) && OnlyChain(b, x, y, chain)
             && OnlyChain(b, y, z, chain)
    ensures TableKept(b, x, z) && OnlyChain(b, x, z, chain)
  {
    hide ClusterOf;
  }

  lemma OnlyTrans(b: Bpb, x: seq<Sector>, y: seq<Sector>, z: seq<Sector>, chain: seq<nat>, more: seq<nat>)
    requires b.spc > 0 && OnlyChain(b, x, y, chain) && OnlyChain(b, y, z, more) && forall c :: c in chain ==> c in more
    ensures OnlyChain(b, x, z, more)
  {
    hide ClusterOf;
  }

  /** Every other chain keeps its bytes and, read as a directory, its slots. */
  lemma OthersKept(b: Bpb, was: seq<Sector>, now: seq<Sector>, fat: Fat, f: Forest, first: nat, k: nat, bytes: Buf)
    requires ForestOk(fat, f) && first in f.chains && k in f.chains && k != first && Holds(b, was, f.chains[k], bytes)
    requires b.spc > 0 && OnlyChain(b, was, now, f.chains[first])
    ensures Holds(b, now, f.chains[k], bytes)
    ensures Slots(b, now, f.chains[k]) == Slots(b, was, f.chains[k])
  {
    hide ForestOk, Holds, Slots, ClusterOf, InRange;
    DisjointChains(fat, f, k, first);
    OthersHold(b, was, now, f.chains[first], f.chains[k], bytes);
    HoldsRange(b, was, f.chains[k], bytes);
    ElsewhereSlots(b, was, now, f.chains[first], f.chains[k]);
  }

  lemma HoldsRange(b: Bpb, disk: seq<Sector>, chain: seq<nat>, bytes: Buf)
    requires Holds(b, disk, chain, bytes)
    ensures InRange(b, chain) && b.totalSectors <= |disk|
  {
  }

  lemma ElsewhereSlots(b: Bpb, was: seq<Sector>, now: seq<Sector>, chain: seq<nat>, other: seq<nat>)
    requires InRange(b, other) && b.totalSectors <= |was| && OnlyChain(b, was, now, chain)
             && forall c :: c in other ==> c !in chain
    ensures Slots(b, now, other) == Slots(b, was, other)
  {
    hide FileSec, Cap, SlotIn, ClusterOf;
    forall j | 0 <= j < 16 * Cap(b, other) ensures Slots(b, now, other)[j] == Slots(b, was, other)[j] {
      SlotSector(b, other, j);
      FileSecPlace(b, other, j / 16);
    }
  }

  lemma KeptFat(b: Bpb, was: seq<Sector>, now: seq<Sector>, fat: Fat)
    requires FatIs(b, was, fat) && TableKept(b, was, now)
    ensures FatIs(b, now, fat) && TopsKept(b, was, now)
  {
    DataOnly(b, was, now, fat);
  }

  /** write_dir_entry at the place of slot `j`. */
  method PutSlot(fs: Fat32, chain: seq<nat>, ghost j: nat, sector: nat, offset: nat, slot: Slot)
    requires NoDup(chain) && fs.b.totalSectors <= fs.dev.Length && PlaceIs(fs.b, chain, j, sector, offset)
    modifies fs.dev
    ensures Slots(fs.b, fs.dev[..], chain) == old(Slots(fs.b, fs.dev[..], chain))[j := slot]
    ensures TableKept(fs.b, old(fs.dev[..]), fs.dev[..]) && OnlyChain(fs.b, old(fs.dev[..]), fs.dev[..], chain)
  {
    hide Slots, FileSec, Cap, NoDup, Splice;
    InSector(fs.b, chain, j, sector, offset);
    FileSecPlace(fs.b, chain, j / 16);
    ghost var was := fs.dev[..];
    SlotWritten(fs.b, was, chain, j, slot);
    fs.dev[sector] := Splice(fs.dev[sector], offset, slot);
    assert fs.dev[..] == was[sector := Splice(was[sector], offset, slot)];
  }

  method SfnChecksum(sfn: Buf) returns (sum: u8)
    ensures sum == Checksum(sfn)
  {
    hide Turn;
    sum := 0;
    for i := 0 to |sfn|
      invariant sum == Checksum(sfn[..i])
    {
      assert sfn[..i + 1][..i] == sfn[..i];
      sum := Turn(sum, sfn[i]);
    }
    assert sfn[..|sfn|] == sfn;
  }

  /** The writing part of create_dir_entry: long-name slots from the last chunk down, then the short slot. */
  method WriteName(fs: Fat32, chain: seq<nat>, ghost at: nat, sector0: nat, offset0: nat, name: Name, sfn: Buf,
      attr: u8, cluster: u32, stamp: Buf)
    requires NoDup(chain) && fs.b.totalSectors <= fs.dev.Length && PlaceIs(fs.b, chain, at, sector0, offset0)
    requires Count(name) <= 64 && |sfn| == 11 && |stamp| == 4 && Consecutive(fs.b, chain, at, at + Count(name))
    modifies fs.dev
    ensures Slots(fs.b, fs.dev[..], chain) == WriteAt(old(Slots(fs.b, fs.dev[..], chain)), at,
            NewSlots(name, sfn, attr, cluster, stamp))
    ensures TableKept(fs.b, old(fs.dev[..]), fs.dev[..]) && OnlyChain(fs.b, old(fs.dev[..]), fs.dev[..], chain)
  {
    hide Slots, FileSec, Cap, NoDup, LfnSlot, SfnSlot, Padded, Checksum, PlaceIs, Consecutive, InRange, TableKept,
         OnlyChain;
    var n := Count(name);
    var sum := SfnChecksum(sfn);
    Fits(fs.b, chain, at, at + n);
    ghost var start := fs.dev[..];
    SameAll(fs.b, start, chain);
    ghost var was := Slots(fs.b, fs.dev[..], chain);
    ghost var new_ := NewSlots(name, sfn, attr, cluster, stamp);
    var sector, offset, t := sector0, offset0, 0;
    while t < n
      invariant 0 <= t <= n && PlaceIs(fs.b, chain, at + t, sector, offset)
      invariant Partly(was, Slots(fs.b, fs.dev[..], chain), at, new_, t) && TableKept(fs.b, old(fs.dev[..]), fs.dev[..])
      invariant OnlyChain(fs.b, old(fs.dev[..]), fs.dev[..], chain)
    {
      var idx := n - 1 - t;
      assert new_[t] == LfnSlot(name, idx, Checksum(sfn));
      ghost var mid := fs.dev[..];
      PutSlot(fs, chain, at + t, sector, offset, LfnSlot(name, idx, sum));
      KeptTrans(fs.b, start, mid, fs.dev[..], chain);
      AdvanceIs(fs.b, chain, at, at + t, at + n, sector, offset);
      var next := Advance(sector, offset);
      sector, offset, t := next.0, next.1, t + 1;
    }
    ghost var long := fs.dev[..];
    PutSlot(fs, chain, at + n, sector, offset, SfnSlot(sfn, attr, cluster, stamp));
    KeptTrans(fs.b, start, long, fs.dev[..], chain);
    assert new_[n] == SfnSlot(sfn, attr, cluster, stamp);
    PartlyAll(was, Slots(fs.b, fs.dev[..], chain), at, new_);
  }

  lemma Fits(b: Bpb, chain: seq<nat>, i: nat, k: nat)
    requires Consecutive(b, chain, i, k)
    ensures InRange(b, chain) && i <= k < 16 * Cap(b, chain) && b.spc > 0
  {
  }

  /** The first `t` of the new slots written. */
  ghost predicate Partly(was: seq<Slot>, now: seq<Slot>, at: nat, new_: seq<Slot>, t: nat) {
    && |now| == |was| && at + |new_| <= |was| && t <= |new_|
    && forall i :: 0 <= i < |was| ==> now[i] == if at <= i < at + t then new_[i - at] else was[i]
  }

  lemma PartlyAll(was: seq<Slot>, now: seq<Slot>, at: nat, new_: seq<Slot>)
    requires Partly(was, now, at, new_, |new_|)
    ensures now == WriteAt(was, at, new_)
  {
  }

  /** The loop of unlink: every slot of the entry, from its first long-name slot to its short slot. */
  method DeleteSlots(fs: Fat32, chain: seq<nat>, ghost i: nat, ghost k: nat, sector0: nat, offset0: nat,
      endSector: nat, endOffset: nat)
    requires NoDup(chain) && fs.b.totalSectors <= fs.dev.Length && Consecutive(fs.b, chain, i, k)
    requires PlaceIs(fs.b, chain, i, sector0, offset0) && PlaceIs(fs.b, chain, k, endSector, endOffset)
    modifies fs.dev
    ensures Slots(fs.b, fs.dev[..], chain) == MarkDeleted(old(Slots(fs.b, fs.dev[..], chain)), i, k)
    ensures TableKept(fs.b, old(fs.dev[..]), fs.dev[..]) && OnlyChain(fs.b, old(fs.dev[..]), fs.dev[..], chain)
  {
    hide Slots, FileSec, Cap, NoDup, PlaceIs, Consecutive, InRange, MarkDeleted, TableKept, OnlyChain;
    Fits(fs.b, chain, i, k);
    ghost var start := fs.dev[..];
    SameAll(fs.b, start, chain);
    ghost var was := Slots(fs.b, fs.dev[..], chain);
    var sector, offset := sector0, offset0;
    ghost var j := i;
    var more := true;
    while more
      invariant i <= j <= k + 1 && (more <==> j <= k)
      invariant more ==> PlaceIs(fs.b, chain, j, sector, offset)
      invariant Marked(was, Slots(fs.b, fs.dev[..], chain), i, j) && TableKept(fs.b, old(fs.dev[..]), fs.dev[..])
      invariant OnlyChain(fs.b, old(fs.dev[..]), fs.dev[..], chain)
      decreases k + 1 - j
    {
      InSector(fs.b, chain, j, sector, offset);
      var raw := SlotIn(fs.dev[sector], offset / 32);
      SlotIs(fs.b, fs.dev[..], chain, j / 16, j % 16);
      ghost var mid := fs.dev[..];
      PutSlot(fs, chain, j, sector, offset, raw[0 := Deleted]);
      KeptTrans(fs.b, start, mid, fs.dev[..], chain);
      SamePlace(fs.b, chain, j, k, sector, offset, endSector, endOffset);
      if sector == endSector && offset == endOffset {
        more := false;
      } else {
        AdvanceIs(fs.b, chain, i, j, k, sector, offset);
        var next := Advance(sector, offset);
        sector, offset := next.0, next.1;
      }
      j := j + 1;
    }
    MarkedAll(was, Slots(fs.b, fs.dev[..], chain), i, k);
  }

  ghost predicate Marked(was: seq<Slot>, now: seq<Slot>, i: nat, j: nat) {
    && |now| == |was| && i <= j <= |was|
    && forall x :: 0 <= x < |was| ==> now[x] == if i <= x < j then was[x][0 := Deleted] else was[x]
  }

  lemma MarkedAll(was: seq<Slot>, now: seq<Slot>, i: nat, k: nat)
    requires i <= k && Marked(was, now, i, k + 1)
    ensures now == MarkDeleted(was, i, k)
  {
  }

  lemma InSector(b: Bpb, chain: seq<nat>, j: nat, sector: nat, offset: nat)
    requires PlaceIs(b, chain, j, sector, offset)
    ensures sector < b.totalSectors && offset == 32 * (j % 16) && j / 16 < Cap(b, chain)
            && sector == FileSec(b, chain, j / 16) && 16 * (j / 16) + j % 16 == j
  {
    SlotSector(b, chain, j);
  }

  /** Two slots at one place are one slot. */
  lemma SamePlace(b: Bpb, chain: seq<nat>, j: nat, k: nat, sector: nat, offset: nat, endSector: nat, endOffset: nat)
    requires NoDup(chain) && PlaceIs(b, chain, j, sector, offset) && PlaceIs(b, chain, k, endSector, endOffset)
    ensures sector == endSector && offset == endOffset <==> j == k
  {
    hide FileSec, Cap;
    InSector(b, chain, j, sector, offset);
    InSector(b, chain, k, endSector, endOffset);
    if j / 16 != k / 16 { FileSecApart(b, chain, j / 16, k / 16); }
  }

  // ---------------------------------------------------------------- a new cluster of slots

  /** A zeroed cluster behind the chain adds blank slots. */
  lemma GrownSlots(b: Bpb, was: seq<Sector>, now: seq<Sector>, chain: seq<nat>, c: nat)
    requires InRange(b, chain) && InRange(b, chain + [c]) && 2 <= c && c !in chain && b.totalSectors <= |was| == |now|
    requires forall s :: b.DataStart() <= s < |was| && ClusterOf(b, s) != c ==> now[s] == was[s]
    requires forall s :: b.ClusterSector(c) <= s < b.ClusterSector(c) + b.spc && s < |now| ==> now[s] == Zeros(512)
    ensures Cap(b, chain + [c]) == Cap(b, chain) + b.spc
    ensures Slots(b, now, chain + [c]) == Slots(b, was, chain) + seq(16 * b.spc, _ => Blank)
  {
    hide FileSec, Cap, ClusterOf, Bpb.MaxCluster, SlotIn;
    var more := chain + [c];
    CapMore(b, chain, c);
    var a, z := Slots(b, now, more), Slots(b, was, chain) + seq(16 * b.spc, _ => Blank);
    forall j | 0 <= j < |a| ensures a[j] == z[j] {
      SlotSector(b, more, j);
      if j / 16 < Cap(b, chain) {
        SecSame(b, chain, c, j / 16);
        FileSecPlace(b, chain, j / 16);
      } else {
        var s := j / 16 - Cap(b, chain);
        SecNew(b, chain, c, s);
        BlankSlot(j % 16);
      }
    }
  }

  lemma CapMore(b: Bpb, chain: seq<nat>, c: nat)
    ensures Cap(b, chain + [c]) == Cap(b, chain) + b.spc
  {
    ClusterEnd(b, chain + [c], |chain|);
  }

  lemma SecSame(b: Bpb, chain: seq<nat>, c: nat, k: nat)
    requires InRange(b, chain) && InRange(b, chain + [c]) && k < Cap(b, chain)
    ensures k < Cap(b, chain + [c]) && FileSec(b, chain + [c], k) == FileSec(b, chain, k)
  {
    hide Bpb.ClusterSector, Mul, Div, Mod;
    CapMore(b, chain, c);
    SecIndex(b, chain, k);
    assert (chain + [c])[Div(k, b.spc)] == chain[Div(k, b.spc)];
  }

  lemma SecNew(b: Bpb, chain: seq<nat>, c: nat, s: nat)
    requires InRange(b, chain + [c]) && 2 <= c && s < b.spc
    ensures Cap(b, chain) + s < Cap(b, chain + [c])
            && FileSec(b, chain + [c], Cap(b, chain) + s) == b.ClusterSector(c) + s
  {
    CapMore(b, chain, c);
    CapIs(b, chain);
    InCluster(b, chain + [c], |chain|, s);
  }

  lemma BlankSlot(x: nat)
    requires x < 16
    ensures SlotIn(Zeros(512), x) == Blank
  {
  }

  /** The end of find_free_dir_slots: a new cluster, linked and zeroed. */
  method GrowDir(fs: Fat32, first: nat, chain: seq<nat>, ghost fat: Fat, ghost f: Forest)
      returns (c: Option<nat>, ghost fat2: Fat, ghost f2: Forest)
    requires FatIs(fs.b, fs.dev[..], fat) && ForestOk(fat, f) && first in f.chains && chain == f.chains[first]
             && InRange(fs.b, chain)
    modifies fs.dev
    ensures |fat| >= 2 && c == FatForest.FirstFree(fat, 2)
    ensures FatIs(fs.b, fs.dev[..], fat2) && ForestOk(fat2, f2) && fs.b.totalSectors <= fs.dev.Length
    ensures c.None? ==> (fat2, f2) == (fat, f) && Slots(fs.b, fs.dev[..], chain) == old(Slots(fs.b, fs.dev[..], chain))
    ensures TopsKept(fs.b, old(fs.dev[..]), fs.dev[..]) && first in f2.chains
            && OnlyChain(fs.b, old(fs.dev[..]), fs.dev[..], f2.chains[first])
    ensures c.Some? ==> f2.chains == f.chains[first := chain + [c.value]] && InRange(fs.b, chain + [c.value])
    ensures c.Some? ==>
            Slots(fs.b, fs.dev[..], chain + [c.value]) == old(Slots(fs.b, fs.dev[..], chain)) + seq(16 * fs.b.spc,
                _ => Blank)
  {
    hide FatIs, ForestOk, Slots, Cap, ClusterOf, Bpb.DataStart, Bpb.MaxCluster, Bpb.ClusterSector, TopsKept;
    ghost var was := fs.dev[..];
    TableSize(fs.b, was, fat);
    c := fs.AllocCluster(fat);
    fat2, f2 := fat, f;
    if c.None? {
      SameSlots(fs.b, was, fs.dev[..], chain);
      return;
    }
    ghost var taken := fs.dev[..];
    GrowOnce(fat, f, first, c.value);
    fs.PutEntry(Last(chain), c.value, fat[c.value := Eoc]);
    TopsTrans(fs.b, was, taken, fs.dev[..]);
    fat2, f2 := fat[c.value := Eoc][Last(chain) := c.value], LinkForest(AllocForest(f, c.value), first, c.value);
    assert f2.chains[first] == chain + [c.value];
    ChainInRange(fs.b, fs.dev[..], fat2, f2, first);
    ghost var linked := fs.dev[..];
    LastInRange(fs.b, linked, fat2, chain, c.value);
    ZeroCluster(fs, c.value);
    NewCluster(chain, c.value);
    ZeroedTable(fs.b, linked, fs.dev[..], fat2, c.value);
    TopsTrans(fs.b, was, linked, fs.dev[..]);
    assert (chain + [c.value])[|chain|] == c.value;
    GrownSlots(fs.b, was, fs.dev[..], chain, c.value);
  }

  lemma LastInRange(b: Bpb, disk: seq<Sector>, fat: Fat, chain: seq<nat>, c: nat)
    requires FatIs(b, disk, fat) && InRange(b, chain + [c])
    ensures OnVolume(b, disk) && 2 <= c < b.MaxCluster()
  {
    assert (chain + [c])[|chain|] == c;
  }

  lemma SameSlots(b: Bpb, was: seq<Sector>, now: seq<Sector>, chain: seq<nat>)
    requires InRange(b, chain) && b.totalSectors <= |was| == |now| && forall s :: b.DataStart() <= s < |was| ==>
             now[s] == was[s]
    ensures Slots(b, now, chain) == Slots(b, was, chain)
  {
    hide FileSec, Cap, SlotIn;
    forall j | 0 <= j < 16 * Cap(b, chain) ensures Slots(b, now, chain)[j] == Slots(b, was, chain)[j] {
      SlotSector(b, chain, j);
      FileSecPlace(b, chain, j / 16);
    }
  }

  lemma NewCluster(chain: seq<nat>, c: nat)
    requires NoDup(chain + [c])
    ensures c !in chain
  {
    forall i | 0 <= i < |chain| ensures chain[i] != c { assert (chain + [c])[i] != (chain + [c])[|chain|]; }
  }

  lemma ZeroedTable(b: Bpb, was: seq<Sector>, now: seq<Sector>, fat: Fat, c: nat)
    requires FatIs(b, was, fat) && |now| == |was|
    requires forall s :: 0 <= s < |was| && (s < b.DataStart() || ClusterOf(b, s) != c) ==> now[s] == was[s]
    ensures FatIs(b, now, fat) && TopsKept(b, was, now)
  {
    DataOnly(b, was, now, fat);
  }

  method ZeroCluster(fs: Fat32, c: nat)
    requires OnVolume(fs.b, fs.dev[..]) && 2 <= c < fs.b.MaxCluster()
    modifies fs.dev
    ensures forall s :: 0 <= s < fs.dev.Length && (s < fs.b.DataStart() || ClusterOf(fs.b, s) != c) ==>
            fs.dev[s] == old(fs.dev[..])[s]
    ensures forall s :: fs.b.ClusterSector(c) <= s < fs.b.ClusterSector(c) + fs.b.spc && s < fs.dev.Length ==>
            fs.dev[s] == Zeros(512)
  {
    hide ClusterOf, Bpb.MaxCluster, Bpb.ClusterSector, Bpb.DataStart;
    var start := fs.b.ClusterSector(c);
    var s := 0;
    while s < fs.b.spc
      invariant 0 <= s <= fs.b.spc
      invariant forall x :: 0 <= x < fs.dev.Length && (x < fs.b.DataStart() || ClusterOf(fs.b, x) != c) ==>
                fs.dev[x] == old(fs.dev[..])[x]
      invariant forall x :: start <= x < start + s && x < fs.dev.Length ==> fs.dev[x] == Zeros(512)
    {
      SectorPlace(fs.b, c, s);
      fs.dev[start + s] := Zeros(512);
      s := s + 1;
    }
  }

  /** create_dir_entry: the directory's slots become what CreateEntry says. */
  method CreateDirEntry(fs: Fat32, first: nat, name: Name, attr: u8, cluster: u32, stamp: Buf, ghost fat: Fat,
      ghost f: Forest)
    returns (ok: bool, ghost fat2: Fat, ghost f2: Forest)
    requires FatIs(fs.b, fs.dev[..], fat) && ForestOk(fat, f) && first in f.chains && InRange(fs.b, f.chains[first])
    requires Printable(name) && |stamp| == 4 && fs.b.totalSectors <= fs.dev.Length
    requires var at := FindRun(Slots(fs.b, fs.dev[..], f.chains[first]), 0, 0, 2); at.Some? ==>
             Consecutive(fs.b, f.chains[first], at.value, at.value + 1)
    modifies fs.dev
    ensures |fat| >= 2 && FatIs(fs.b, fs.dev[..], fat2) && ForestOk(fat2, f2) && first in f2.chains
            && InRange(fs.b, f2.chains[first])
    ensures match CreateEntry(old(Slots(fs.b, fs.dev[..], f.chains[first])), 16 * fs.b.spc,
            FatForest.FirstFree(fat, 2).Some?, name, attr, cluster, stamp)
            case None => !ok
                && Slots(fs.b, fs.dev[..], f2.chains[first]) == old(Slots(fs.b, fs.dev[..], f.chains[first]))
            case Some(r) => ok && Slots(fs.b, fs.dev[..], f2.chains[first]) == r
    ensures TopsKept(fs.b, old(fs.dev[..]), fs.dev[..]) && fs.b.spc > 0
            && OnlyChain(fs.b, old(fs.dev[..]), fs.dev[..], f2.chains[first])
    ensures f2.chains.Keys == f.chains.Keys && f.chains[first] <= f2.chains[first]
    ensures forall k :: k in f.chains && k != first ==> f2.chains[k] == f.chains[k]
  {
    hide FatIs, ForestOk, Slots, Cap, FileSec, InRange, FindRun, Consecutive, WriteAt, NewSlots, Short, NoDup,
         ClusterOf, TopsKept, OnlyChain;
    ghost var was := fs.dev[..];
    TableSize(fs.b, fs.dev[..], fat);
    TopsSelf(fs.b, was, fat);
    SpcPositive(fs.b, was, fat);
    OnlySelf(fs.b, was, f.chains[first]);
    fat2, f2 := fat, f;
    var sfn := BuildSfn(name);
    if sfn.None? { return false, fat, f; }
    ShortIsName(name);
    var chain := fs.ClusterChain(first, fat, f);
    ChainInRange(fs.b, fs.dev[..], fat, f, first);
    var at := FindSlots(fs, chain, 2);
    if at.Some? {
      WriteHere(fs, chain, at.value, name, sfn.value, attr, cluster, stamp, fat);
      TopsTrans(fs.b, was, was, fs.dev[..]);
    } else {
      var c;
      c, fat2, f2 := GrowDir(fs, first, chain, fat, f);
      if c.None? { return false, fat2, f2; }
      ghost var grown := fs.dev[..];
      ChainInRange(fs.b, fs.dev[..], fat2, f2, first);
      AtNewCluster(fs.b, chain, c.value);
      WriteHere(fs, chain + [c.value], 16 * Cap(fs.b, chain), name, sfn.value, attr, cluster, stamp, fat2);
      TopsTrans(fs.b, was, grown, fs.dev[..]);
      OnlyTrans(fs.b, was, grown, fs.dev[..], chain + [c.value], chain + [c.value]);
    }
    ok := true;
  }

  method WriteHere(fs: Fat32, chain: seq<nat>, at: nat, name: Name, sfn: Buf, attr: u8, cluster: u32, stamp: Buf,
      ghost fat: Fat)
    requires FatIs(fs.b, fs.dev[..], fat) && NoDup(chain) && fs.b.totalSectors <= fs.dev.Length
    requires Count(name) == 1 && |sfn| == 11 && |stamp| == 4 && Consecutive(fs.b, chain, at, at + 1)
    modifies fs.dev
    ensures InRange(fs.b, chain) && FatIs(fs.b, fs.dev[..], fat) && TopsKept(fs.b, old(fs.dev[..]), fs.dev[..])
    ensures OnlyChain(fs.b, old(fs.dev[..]), fs.dev[..], chain)
    ensures Slots(fs.b, fs.dev[..], chain) == WriteAt(old(Slots(fs.b, fs.dev[..], chain)), at,
            NewSlots(name, sfn, attr, cluster, stamp))
  {
    hide FatIs, Slots, Cap, FileSec, InRange, Consecutive, WriteAt, NewSlots, NoDup, TableKept, TopsKept, OnlyChain;
    Fits(fs.b, chain, at, at + 1);
    ghost var was := fs.dev[..];
    SlotSector(fs.b, chain, at);
    WriteName(fs, chain, at, FileSec(fs.b, chain, at / 16), 32 * (at % 16), name, sfn, attr, cluster, stamp);
    KeptFat(fs.b, was, fs.dev[..], fat);
  }

  lemma AtNewCluster(b: Bpb, chain: seq<nat>, c: nat)
    requires InRange(b, chain + [c])
    ensures Consecutive(b, chain + [c], 16 * Cap(b, chain), 16 * Cap(b, chain) + 1)
  {
    CapMore(b, chain, c);
  }

  lemma SpcPositive(b: Bpb, disk: seq<Sector>, fat: Fat)
    requires FatIs(b, disk, fat)
    ensures b.spc > 0 && b.totalSectors <= |disk|
  {
  }

  lemma OnlySelf(b: Bpb, disk: seq<Sector>, chain: seq<nat>)
    requires b.spc > 0
    ensures OnlyChain(b, disk, disk, chain)
  {
  }

  // ---------------------------------------------------------------- unlink

  /** The entry unlink finds: its slots in consecutive sectors, its chain, if it has one, not the directory's. */
  ghost predicate CanUnlink(b: Bpb, f: Forest, first: nat, e: DirEntry)
    requires first in f.chains
  {
    Consecutive(b, f.chains[first], e.from, e.at) && e.cluster != first
        && (e.cluster in f.chains || e.cluster < 2 || e.cluster >= Eoc)
  }

  /** unlink: the entry's clusters are freed and its slots marked; nothing else changes. */
  method Unlink(fs: Fat32, first: nat, name: Name, ghost fat: Fat, ghost f: Forest)
      returns (ok: bool, ghost fat2: Fat, ghost f2: Forest)
    requires FatIs(fs.b, fs.dev[..], fat) && ForestOk(fat, f) && first in f.chains && InRange(fs.b, f.chains[first])
    requires fs.b.totalSectors <= fs.dev.Length
    requires var o := Lookup(Slots(fs.b, fs.dev[..], f.chains[first]), name); o.Some? ==>
             CanUnlink(fs.b, f, first, o.value)
    modifies fs.dev
    ensures FatIs(fs.b, fs.dev[..], fat2) && ForestOk(fat2, f2) && TopsKept(fs.b, old(fs.dev[..]), fs.dev[..])
    ensures first in f2.chains && f2.chains[first] == f.chains[first] && fs.b.spc > 0
    ensures OnlyChain(fs.b, old(fs.dev[..]), fs.dev[..], f.chains[first])
    ensures match Lookup(old(Slots(fs.b, fs.dev[..], f.chains[first])), name)
            case None => !ok && fs.dev[..] == old(fs.dev[..]) && (fat2, f2) == (fat, f)
            case Some(e) =>
              && ok && f2 == (if e.cluster in f.chains then FreeForest(f, e.cluster) else f)
              && Some(Slots(fs.b, fs.dev[..], f.chains[first]))
                 == Unlinked(old(Slots(fs.b, fs.dev[..], f.chains[first])), name)
  {
    hide FatIs, ForestOk, Slots, Cap, FileSec, InRange, Consecutive, NoDup, ClusterOf, TopsKept, OnlyChain,
         EntriesFrom, FindIn, MarkDeleted, TableKept;
    ghost var was := fs.dev[..];
    ghost var slots := Slots(fs.b, was, f.chains[first]);
    fat2, f2 := fat, f;
    TopsSelf(fs.b, was, fat);
    SpcPositive(fs.b, was, fat);
    OnlySelf(fs.b, was, f.chains[first]);
    var o := FindEntry(fs, first, name, fat, f);
    if o.None? { return false, fat, f; }
    var e := o.value;
    ghost var a, z := UnlinkLookup(slots, name);
    var chain := fs.ClusterChain(first, fat, f);
    ChainInRange(fs.b, was, fat, f, first);
    var freed := fs.ClusterChain(e.cluster, fat, f);
    if freed != [] { fat2, f2 := fs.FreeChain(e.cluster, fat, f); }
    ghost var mid := fs.dev[..];
    NonemptyChain(fat, f, e.cluster);
    SameSlots(fs.b, was, mid, chain);
    Fits(fs.b, chain, e.from, e.at);
    SlotSector(fs.b, chain, e.from);
    SlotSector(fs.b, chain, e.at);
    DeleteSlots(fs, chain, e.from, e.at, FileSec(fs.b, chain, e.from / 16), 32 * (e.from % 16),
        FileSec(fs.b, chain, e.at / 16), 32 * (e.at % 16));
    KeptFat(fs.b, mid, fs.dev[..], fat2);
    TopsTrans(fs.b, was, mid, fs.dev[..]);
    DataSame(fs.b, was, mid, chain);
    OnlyTrans(fs.b, was, mid, fs.dev[..], chain, chain);
    ok := true;
  }

  lemma NonemptyChain(fat: Fat, f: Forest, h: nat)
    requires ForestOk(fat, f)
    ensures h in f.chains ==> f.chains[h] != []
  {
  }

  lemma DataSame(b: Bpb, was: seq<Sector>, now: seq<Sector>, chain: seq<nat>)
    requires b.spc > 0 && |now| == |was| && forall s :: b.DataStart() <= s < |was| ==> now[s] == was[s]
    ensures OnlyChain(b, was, now, chain)
  {
  }
}
