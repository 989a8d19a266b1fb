/** Creating, finding and unlinking 8.3 names in a FAT32 directory (fs/src/fat32/mod.rs:193-202, 343-417,
    431-433, 516-531). */
module FatNames {
  import opened Arith
  import opened Bytes
  import opened Bitmap
  import opened FatDir

  // ---------------------------------------------------------------- short names

  /** rfind('.'). */
  function LastDot(name: Name, k: nat): (r: Option<nat>)
    requires k <= |name|
    ensures r.Some? ==> r.value < k && name[r.value] == 46
    ensures r.None? ==> forall i :: 0 <= i < k ==> name[i] != 46
  {
    if k == 0 then None else if name[k - 1] == 46 then Some(k - 1) else LastDot(name, k - 1)
  }

  predicate Invalid(c: u16) { c in [32, 46, 34, 42, 43, 44, 47, 58, 59, 60, 61, 62, 63, 91, 92, 93, 124] }

  function Upper(c: u16): u16 { if 97 <= c <= 122 then c - 32 else c }

  predicate Printable(name: Name) { forall i :: 0 <= i < |name| ==> 32 <= name[i] <= 126 }

  function Field(s: Name, n: nat): (r: Buf)
    requires |s| <= n && Printable(s)
    ensures |r| == n && (s != [] ==> r[0] == Upper(s[0]))
    ensures forall i :: 0 <= i < n ==> r[i] == if i < |s| then Upper(s[i]) else 32
  {
    seq(n, i requires 0 <= i < n => if i < |s| then Upper(s[i]) else 32)
  }

  function Base(name: Name): Name { if LastDot(name, |name|).Some? then name[..LastDot(name, |name|).value] else name }

  function Ext(name: Name): Name { if LastDot(name, |name|).Some? then name[LastDot(name, |name|).value + 1..] else [] }

  predicate Short(name: Name) {
    && Base(name) != [] && |Base(name)| <= 8 && |Ext(name)| <= 3
    && (forall i :: 0 <= i < |Base(name)| ==> !Invalid(Base(name)[i])) && (forall i :: 0 <= i < |Ext(name)| ==>
       !Invalid(Ext(name)[i]))
  }

  /** build_sfn. */
  function BuildSfn(name: Name): (r: Option<Buf>)
    requires Printable(name)
    ensures r.Some? ==> |r.value| == 11 && r.value[0] != 0 && r.value[0] != Deleted
  {
    if Short(name) then Some(Field(Base(name), 8) + Field(Ext(name), 3)) else None
  }

  lemma ShortIsName(name: Name)
    requires Printable(name) && Short(name)
    ensures IsName(name) && name != Dot && name != DotDot && Count(name) == 1
  {
    assert |name| <= 12;
    assert Invalid(46);
    assert LastDot(Dot, 1) == Some(0);
    assert LastDot(DotDot, 2) == Some(1) && Base(DotDot) == DotDot[..1] && DotDot[..1][0] == 46;
  }

  // ---------------------------------------------------------------- reading short names back

  /** Padding is taken away again. */
  lemma {:induction false} TrimPadded(s: Buf, n: nat)
    requires n <= |s| && (forall i :: n <= i < |s| ==> s[i] == 32) && (n > 0 ==> s[n - 1] != 32)
    ensures TrimEnd(s) == s[..n]
    decreases |s|
  {
    if n < |s| {
      TrimPadded(s[..|s| - 1], n);
      assert s[..|s| - 1][..n] == s[..n];
    } else {
      assert s[..n] == s;
    }
  }

  /** Any short slot, whoever wrote it: base and extension without their padding, a dot between them if there is an
      extension. */
  lemma ParsePadded(raw: Slot, b: Buf, e: Buf)
    requires |b| <= 8 && |e| <= 3 && (b != [] ==> b[|b| - 1] != 32) && (e != [] ==> e[|e| - 1] != 32)
    requires raw[..8] == b + seq(8 - |b|, _ => 32) && raw[8..11] == e + seq(3 - |e|, _ => 32)
    ensures ParseSfn(raw) == Wide(b) + if e == [] then [] else [46] + Wide(e)
  {
    var x, y := raw[..8], raw[8..11];
    TrimPadded(x, |b|);
    TrimPadded(y, |e|);
    assert x[..|b|] == b && y[..|e|] == e;
  }

  /** The name in capitals. */
  function Capitals(s: Name): (r: Buf)
    requires Printable(s)
    ensures |r| == |s| && forall i :: 0 <= i < |s| ==> r[i] == Upper(s[i])
  {
    seq(|s|, i requires 0 <= i < |s| => Upper(s[i]))
  }

  lemma FieldPadded(s: Name, n: nat)
    requires |s| <= n && Printable(s)
    ensures Field(s, n) == Capitals(s) + seq(n - |s|, _ => 32)
  {
  }

  /** The name ends in its only dot. */
  predicate TrailingDot(name: Name) { name != [] && name[|name| - 1] == 46 }

  /** A short slot without long-name slots before it is listed, with its attributes and cluster, under the name it was
      built from, up to case; a trailing dot is the one thing that is lost. */
  lemma ShortBack(name: Name, attr: u8, cluster: u32, stamp: Buf, i: nat)
    requires Printable(name) && Short(name) && |stamp| == 4 && PlainAttr(attr)
    ensures BuildSfn(name).Some?
    ensures var (st, o) := ReadSlot(SfnSlot(BuildSfn(name).value, attr, cluster, stamp), i, NoScan);
            && st == NoScan && o.Some? && o.value.attr == attr && o.value.cluster == cluster as int && o.value.size == 0
            && o.value.from == o.value.at == i
            && (SameName(o.value.name, name) <==> !TrailingDot(name))
  {
    hide SfnSlot, Field, U16At, U32At, LastDot, Capitals, Wide, SameName, ParseSfn, Invalid, TrailingDot;
    var sfn := BuildSfn(name).value;
    var raw := SfnSlot(sfn, attr, cluster, stamp);
    var b, e := Capitals(Base(name)), Capitals(Ext(name));
    FieldPadded(Base(name), 8);
    FieldPadded(Ext(name), 3);
    assert raw[..8] == sfn[..8] == Field(Base(name), 8);
    assert raw[8..11] == raw[..11][8..] == Field(Ext(name), 3);
    NoPadding(name);
    ParsePadded(raw, b, e);
    ParsedName(name);
  }

  lemma DotInvalid()
    ensures Invalid(46) && Invalid(32)
  {
  }

  lemma NoPadding(name: Name)
    requires Printable(name) && Short(name)
    ensures var b, e := Capitals(Base(name)), Capitals(Ext(name));
            b != [] && b[|b| - 1] != 32 && (e != [] ==> e[|e| - 1] != 32)
  {
    hide LastDot, Invalid;
    DotInvalid();
    var b, e := Base(name), Ext(name);
    assert !Invalid(b[|b| - 1]);
    if e != [] { assert !Invalid(e[|e| - 1]); }
  }

  lemma ParsedName(name: Name)
    requires Printable(name) && Short(name)
    ensures var r := Wide(Capitals(Base(name))) + if Ext(name) == [] then [] else [46] + Wide(Capitals(Ext(name)));
            r != Dot && r != DotDot && (SameName(r, name) <==> !TrailingDot(name))
  {
    hide LastDot, Capitals, SameName, Wide, Invalid;
    var b, e, k := Base(name), Ext(name), LastDot(name, |name|);
    SameCapitals(b);
    SameCapitals(e);
    Inner(name);
    if k.Some? {
      assert name == b + [46] + e;
      if e != [] {
        SameParts(Wide(Capitals(b)), [46] + Wide(Capitals(e)), b, [46] + e);
        SameParts([46], Wide(Capitals(e)), [46], e);
        Reflexive([46]);
        assert b + ([46] + e) == name;
      } else {
        Longer(Wide(Capitals(b)), name);
      }
    }
    assert Wide(Capitals(b)) + [] == Wide(Capitals(b));
    var r := Wide(Capitals(b)) + if e == [] then [] else [46] + Wide(Capitals(e));
    FirstChar(b);
    assert r[0] == Wide(Capitals(b))[0];
  }

  lemma Longer(a: Name, b: Name)
    requires |a| != |b|
    ensures !SameName(a, b)
  {
  }

  lemma SameCapitals(s: Name)
    requires Printable(s)
    ensures |Capitals(s)| == |s| && SameName(Wide(Capitals(s)), s)
  {
  }

  lemma SameParts(a: Name, b: Name, x: Name, y: Name)
    requires SameName(a, x) && SameName(b, y)
    ensures SameName(a + b, x + y)
  {
  }

  /** Neither part of a short name holds a dot, so only the dot between them can be the last character. */
  lemma Inner(name: Name)
    requires Printable(name) && Short(name)
    ensures Base(name) != [] && Base(name)[0] != 46
    ensures TrailingDot(name) <==> LastDot(name, |name|).Some? && Ext(name) == []
  {
    hide LastDot, Short, Printable;
    EndsPlain(name);
    var k, e := LastDot(name, |name|), Ext(name);
    if k.Some? && e != [] { assert name[|name| - 1] == e[|e| - 1]; }
  }

  lemma EndsPlain(name: Name)
    requires Short(name)
    ensures Base(name) != [] && Base(name)[0] != 46 && (Ext(name) != [] ==> Ext(name)[|Ext(name)| - 1] != 46)
  {
    hide LastDot, Invalid, Base, Ext;
    DotInvalid();
    var b, e := Base(name), Ext(name);
    assert !Invalid(b[0]);
    if e != [] { assert !Invalid(e[|e| - 1]); }
  }

  lemma FirstChar(b: Name)
    requires Printable(b) && b != [] && b[0] != 46
    ensures Wide(Capitals(b)) != [] && Wide(Capitals(b))[0] != 46
  {
  }

  /** In a directory of that one slot the name is found, unless it ends in a dot. */
  lemma ShortFound(name: Name, attr: u8, cluster: u32, stamp: Buf)
    requires Printable(name) && Short(name) && |stamp| == 4 && PlainAttr(attr)
    ensures BuildSfn(name).Some?
    ensures var o := Lookup([SfnSlot(BuildSfn(name).value, attr, cluster, stamp)], name);
            && (o.Some? <==> !TrailingDot(name))
            && (o.Some? ==> o.value.attr == attr && o.value.cluster == cluster as int && o.value.at == 0)
  {
    hide SfnSlot, ReadSlot, Short, BuildSfn, SameName;
    ShortBack(name, attr, cluster, stamp, 0);
    var raw := SfnSlot(BuildSfn(name).value, attr, cluster, stamp);
    var slots := [raw];
    var (st, o) := ReadSlot(raw, 0, NoScan);
    assert EntriesFrom(slots, 1, st) == [];
    assert EntriesFrom(slots, 0, NoScan) == [o.value];
  }

  // ---------------------------------------------------------------- directories of short slots

  /** The slot stands for a file or directory: not deleted, and not a volume label. */
  predicate IsLive(raw: Slot) {
    raw[0] != 0xE5 && !(BitOf(raw[11] as int, 3) && !BitOf(raw[11] as int, 4))
  }

  /** Without long-name slots a directory lists exactly its live slots before the end mark, "." and ".." left
      out, each under its own name and with its own fields. */
  lemma {:induction false} ListedIff(slots: seq<Slot>, i: nat, e: DirEntry)
    requires i <= |slots| && forall j :: 0 <= j < |slots| ==> slots[j][11] != AttrLfn
    ensures e in EntriesFrom(slots, i, NoScan) <==> exists j: nat :: ListedAt(slots, i, j, e)
    decreases |slots| - i
  {
    hide ReadSlot, Lists;
    if i < |slots| && slots[i][0] != 0 {
      ListedIff(slots, i + 1, e);
      OneListed(slots[i], i, e);
      if e in EntriesFrom(slots, i + 1, NoScan) {
        var j: nat :| ListedAt(slots, i + 1, j, e);
        assert ListedAt(slots, i, j, e);
      }
      if j: nat :| ListedAt(slots, i, j, e) {
        assert j > i ==> ListedAt(slots, i + 1, j, e);
      }
      assert Lists(slots[i], i, e) ==> ListedAt(slots, i, i, e);
    }
  }

  ghost predicate ListedAt(slots: seq<Slot>, i: nat, j: nat, e: DirEntry) {
    i <= j < |slots| && NoEnd(slots, i, j + 1) && Lists(slots[j], j, e)
  }

  ghost predicate Lists(raw: Slot, j: nat, e: DirEntry) {
    && IsLive(raw) && e.name == ParseSfn(raw) && e.name != Dot && e.name != DotDot
    && e.attr == raw[11] && e.size == U32At(raw, 28) && e.from == e.at == j
    && e.cluster == U16At(raw, 26) as int + 0x1_0000 * U16At(raw, 20) as int
  }

  lemma OneListed(raw: Slot, i: nat, e: DirEntry)
    requires raw[11] != AttrLfn
    ensures ReadSlot(raw, i, NoScan).0 == NoScan
    ensures e in Opt(ReadSlot(raw, i, NoScan).1) <==> Lists(raw, i, e)
  {
    hide ParseSfn, U16At, U32At;
    AttrBits(raw[11] as int);
  }

  lemma AttrBits(x: nat)
    ensures BitOf(x, 3) == (x / 8 % 2 == 1) && BitOf(x, 4) == (x / 16 % 2 == 1)
  {
    assert x / 2 / 2 / 2 == x / 8 && x / 2 / 2 / 2 / 2 == x / 16;
    var y := x / 2 / 2;
    assert BitOf(x, 3) == BitOf(x / 2, 2) == BitOf(y, 1) == BitOf(y / 2, 0);
    assert BitOf(x, 4) == BitOf(x / 2, 3) == BitOf(y, 2) == BitOf(y / 2, 1) == BitOf(y / 2 / 2, 0);
  }

  // ---------------------------------------------------------------- free slots

  predicate IsFree(raw: Slot) { raw[0] == 0 || raw[0] == Deleted }

  /** find_free_dir_slots over the existing slots: the first `needed` free ones in a row. */
  function FindRun(slots: seq<Slot>, i: nat, run: nat, needed: nat): (r: Option<nat>)
    requires run <= i <= |slots| && run < needed
    ensures r.Some? ==> r.value + needed <= |slots|
    decreases |slots| - i
  {
    if i == |slots| then None
    else if !IsFree(slots[i]) then FindRun(slots, i + 1, 0, needed)
    else if run + 1 >= needed then Some(i - run)
    else FindRun(slots, i + 1, run + 1, needed)
  }

  /** After the first end mark every slot is an end mark. */
  ghost predicate WellEnded(slots: seq<Slot>) {
    forall i, j :: 0 <= i < j < |slots| && slots[i][0] == 0 ==> slots[j][0] == 0
  }

  lemma NotEndedAt(slots: seq<Slot>, k: nat)
    requires WellEnded(slots) && k < |slots| && slots[k][0] != 0
    ensures NoEnd(slots, 0, k + 1)
  {
  }

  /** A run is found where the directory has not ended yet. */
  lemma {:induction false} RunFree(slots: seq<Slot>, i: nat, run: nat, needed: nat)
    requires run <= i <= |slots| && run < needed && WellEnded(slots)
    requires forall j :: i - run <= j < i ==> IsFree(slots[j])
    requires run < i ==> !IsFree(slots[i - run - 1])
    ensures var r := FindRun(slots, i, run, needed);
            r.Some? ==>
              && r.value + needed <= |slots| && NoEnd(slots, 0, r.value)
              && forall j :: r.value <= j < r.value + needed ==> IsFree(slots[j])
    decreases |slots| - i
  {
    if i < |slots| {
      if !IsFree(slots[i]) {
        RunFree(slots, i + 1, 0, needed);
      } else if run + 1 < needed {
        RunFree(slots, i + 1, run + 1, needed);
      } else {
        if run < i { NotEndedAt(slots, i - run - 1); }
      }
    }
  }

  function WriteAt(slots: seq<Slot>, at: nat, new_: seq<Slot>): (r: seq<Slot>)
    requires at + |new_| <= |slots|
    ensures |r| == |slots| && r[at..at + |new_|] == new_
    ensures forall i :: 0 <= i < |slots| && !(at <= i < at + |new_|) ==> r[i] == slots[i]
  {
    slots[..at] + new_ + slots[at + |new_|..]
  }

  const Blank: Slot := Zeros(32)

  /** create_dir_entry on the slots of a directory; `per` slots per cluster. None: not an 8.3 name, or no
      cluster for a new block of slots. */
  function CreateEntry(slots: seq<Slot>, per: nat, canGrow: bool, name: Name, attr: u8, cluster: u32,
      stamp: Buf): (r: Option<seq<Slot>>)
    requires Printable(name) && per >= 16 && |stamp| == 4
  {
    match BuildSfn(name)
    case None => None
    case Some(sfn) =>
      ShortIsName(name);
      var new_ := NewSlots(name, sfn, attr, cluster, stamp);
      match FindRun(slots, 0, 0, |new_|)
      case Some(at) => Some(WriteAt(slots, at, new_))
      case None =>
        if canGrow then Some(WriteAt(slots + seq(per, _ => Blank), |slots|, new_)) else None
  }

  // ---------------------------------------------------------------- create, then look up

  lemma {:induction false} DeletedScan(slots: seq<Slot>, i: nat, k: nat, st: Scan)
    requires i < k <= |slots| && forall j :: i <= j < k ==> slots[j][0] == Deleted
    ensures ScanTo(slots, i, k, st) == NoScan && Between(slots, i, k, st) == []
    decreases k - i
  {
    if i + 1 < k { DeletedScan(slots, i + 1, k, NoScan); } else { ScanNone(slots, k, NoScan); }
  }

  /** Free slots at `at`..`k` hide nothing: reading from `at` is reading from `k` in a fresh state. */
  lemma {:induction false} FreeSkipped(slots: seq<Slot>, at: nat, k: nat, st: Scan)
    requires at < k <= |slots| && WellEnded(slots) && forall j :: at <= j < k ==> IsFree(slots[j])
    ensures EntriesFrom(slots, at, st) == EntriesFrom(slots, k, NoScan)
    decreases k - at
  {
    if slots[at][0] == 0 {
      assert k < |slots| ==> slots[k][0] == 0;
    } else if at + 1 < k {
      FreeSkipped(slots, at + 1, k, NoScan);
    }
  }

  /** What an entry's slots, written over free ones, do to the list of entries. */
  lemma EntriesCreated(slots: seq<Slot>, r: seq<Slot>, at: nat, name: Name, sfn: Buf, attr: u8, cluster: u32,
      stamp: Buf)
    requires IsName(name) && name != Dot && name != DotDot && |sfn| == 11 && |stamp| == 4 && sfn[0] != 0
             && sfn[0] != Deleted && PlainAttr(attr)
    requires at + Count(name) + 1 <= |slots| && r == WriteAt(slots, at, NewSlots(name, sfn, attr, cluster, stamp))
    requires WellEnded(slots) && NoEnd(slots, 0, at) && forall j :: at <= j < at + Count(name) + 1 ==> IsFree(slots[j])
    ensures var k := at + Count(name) + 1;
            && EntriesFrom(slots, 0, NoScan) == Between(slots, 0, at, NoScan) + EntriesFrom(slots, k, NoScan)
            && EntriesFrom(r, 0, NoScan) ==
                 Between(slots, 0, at, NoScan) + [DirEntry(name, attr, cluster as int, 0, at, at + Count(name))]
                     + EntriesFrom(slots, k, NoScan)
  {
    hide EntriesFrom, ScanTo, Between, NewSlots, WriteAt, IsName, WellEnded, IsFree;
    var k := at + Count(name) + 1;
    var st := ScanTo(slots, 0, at, NoScan);
    EntriesSplit(slots, 0, at, NoScan);
    FreeSkipped(slots, at, k, st);
    SamePrefix(slots, r, 0, at, NoScan);
    EntriesSplit(r, 0, at, NoScan);
    LfnRoundTrip(r, at, name, sfn, attr, cluster, stamp, st);
    EntriesSplit(r, at, k, st);
    SameSuffix(slots, r, k, NoScan);
    var e := DirEntry(name, attr, cluster as int, 0, at, at + Count(name));
    assert Between(slots, 0, at, NoScan) + ([e] + EntriesFrom(slots, k, NoScan)) == Between(slots, 0, at, NoScan) + [e]
           + EntriesFrom(slots, k, NoScan);
  }

  /** A new entry among old ones is found under its name and no other. */
  lemma FindInserted(a: seq<DirEntry>, e: DirEntry, b: seq<DirEntry>, name: Name)
    ensures SameName(e.name, name) && FindIn(a + b, name).None? ==> FindIn(a + [e] + b, name) == Some(e)
    ensures !SameName(e.name, name) ==> FindIn(a + [e] + b, name) == FindIn(a + b, name)
  {
    hide SameName;
    FindAppend(a, b, name);
    FindAppend(a + [e], b, name);
    FindAppend(a, [e], name);
    assert [e][1..] == [];
  }

  /** How many entries answer to a name. */
  function CountName(es: seq<DirEntry>, name: Name): nat {
    if es == [] then 0 else (if SameName(es[0].name, name) then 1 else 0) + CountName(es[1..], name)
  }

  lemma {:induction false} CountAppend(a: seq<DirEntry>, b: seq<DirEntry>, name: Name)
    ensures CountName(a + b, name) == CountName(a, name) + CountName(b, name)
  {
    hide SameName;
    if a == [] {
      assert a + b == b;
    } else {
      assert (a + b)[1..] == a[1..] + b;
      CountAppend(a[1..], b, name);
    }
  }

  lemma {:induction false} CountZero(es: seq<DirEntry>, name: Name)
    ensures CountName(es, name) == 0 <==> FindIn(es, name).None?
  {
    hide SameName;
    if es != [] { CountZero(es[1..], name); }
  }

  lemma CountInserted(a: seq<DirEntry>, e: DirEntry, b: seq<DirEntry>, name: Name)
    requires SameName(e.name, name)
    ensures CountName(a + [e] + b, name) == CountName(a + b, name) + 1
  {
    hide SameName;
    CountAppend(a, b, name);
    CountAppend(a + [e], b, name);
    CountAppend(a, [e], name);
    assert [e][1..] == [];
  }

  /** The directory slots as create_dir_entry leaves them for a fitting name when a cluster can be had. */
  function Created(slots: seq<Slot>, per: nat, name: Name, attr: u8, cluster: u32, stamp: Buf): seq<Slot>
    requires Printable(name) && Short(name) && per >= 16 && |stamp| == 4
  {
    var r := CreateEntry(slots, per, true, name, attr, cluster, stamp);
    if r.Some? then r.value else slots
  }

  /** The new entry can be read: a run of free slots was there, or no end mark stands before the new cluster. */
  ghost predicate Readable(slots: seq<Slot>) {
    FindRun(slots, 0, 0, 2).Some? || NoEnd(slots, 0, |slots|)
  }

  /** create_file succeeds on every fitting name, but its entry is found afterwards exactly when the
      reader does not stop before it; other names resolve as before in either case. */
  lemma CreateLookupIff(slots: seq<Slot>, per: nat, name: Name, attr: u8, cluster: u32, stamp: Buf)
    requires Printable(name) && Short(name) && per >= 16 && |stamp| == 4 && PlainAttr(attr)
    requires WellEnded(slots) && Lookup(slots, name).None?
    ensures CreateEntry(slots, per, true, name, attr, cluster, stamp).Some?
    ensures Lookup(Created(slots, per, name, attr, cluster, stamp), name).Some? <==> Readable(slots)
    ensures forall m :: !SameName(name, m) ==>
            Lookup(Created(slots, per, name, attr, cluster, stamp), m) == Lookup(slots, m)
    ensures Readable(slots) ==>
              && WellEnded(Created(slots, per, name, attr, cluster, stamp))
              && CountName(EntriesFrom(Created(slots, per, name, attr, cluster, stamp), 0, NoScan), name) == 1
              && var e := Lookup(Created(slots, per, name, attr, cluster, stamp), name).value;
                 e.name == name && e.attr == attr && e.cluster == cluster as int && e.size == 0
  {
    hide EntriesFrom, NewSlots, FindIn, SameName, IsName, Short, FindRun, WellEnded, NoEnd, IsFree;
    ShortIsName(name);
    var sfn := BuildSfn(name).value;
    var new_ := NewSlots(name, sfn, attr, cluster, stamp);
    RunFromStart(slots, 2);
    match FindRun(slots, 0, 0, 2)
    case Some(at) =>
      CreatedAt(slots, at, name, sfn, attr, cluster, stamp);
    case None =>
      var grown := slots + seq(per, _ => Blank);
      GrownEntries(slots, per);
      if NoEnd(slots, 0, |slots|) {
        CreatedAt(grown, |slots|, name, sfn, attr, cluster, stamp);
      } else {
        Hidden(slots, WriteAt(grown, |slots|, new_));
      }
  }

  lemma RunFromStart(slots: seq<Slot>, needed: nat)
    requires WellEnded(slots) && needed > 0
    ensures var r := FindRun(slots, 0, 0, needed);
            r.Some? ==>
              && r.value + needed <= |slots| && NoEnd(slots, 0, r.value)
              && forall j :: r.value <= j < r.value + needed ==> IsFree(slots[j])
  {
    RunFree(slots, 0, 0, needed);
  }

  lemma CreatedAt(slots: seq<Slot>, at: nat, name: Name, sfn: Buf, attr: u8, cluster: u32, stamp: Buf)
    requires IsName(name) && name != Dot && name != DotDot && Count(name) == 1 && PlainAttr(attr)
    requires |sfn| == 11 && |stamp| == 4 && sfn[0] != 0 && sfn[0] != Deleted && at + 2 <= |slots|
    requires WellEnded(slots) && NoEnd(slots, 0, at) && (forall j :: at <= j < at + 2 ==> IsFree(slots[j]))
             && Lookup(slots, name).None?
    ensures var r := WriteAt(slots, at, NewSlots(name, sfn, attr, cluster, stamp));
            && WellEnded(r) && Lookup(r, name) == Some(DirEntry(name, attr, cluster as int, 0, at, at + 1))
            && CountName(EntriesFrom(r, 0, NoScan), name) == 1
            && forall m :: !SameName(name, m) ==> Lookup(r, m) == Lookup(slots, m)
  {
    hide EntriesFrom, NewSlots, FindIn, IsName, IsFree, Between;
    var r := WriteAt(slots, at, NewSlots(name, sfn, attr, cluster, stamp));
    EntriesCreated(slots, r, at, name, sfn, attr, cluster, stamp);
    SlotsAt(r, at, name, sfn, attr, cluster, stamp);
    var a, b := Between(slots, 0, at, NoScan), EntriesFrom(slots, at + 2, NoScan);
    var e := DirEntry(name, attr, cluster as int, 0, at, at + 1);
    FindInserted(a, e, b, name);
    CountInserted(a, e, b, name);
    CountZero(a + b, name);
    forall m | !SameName(name, m) ensures Lookup(r, m) == Lookup(slots, m) { FindInserted(a, e, b, m); }
  }

  lemma {:induction false} EndsFrom(a: seq<Slot>, b: seq<Slot>, i: nat, st: Scan)
    requires i <= |a| <= |b| && (forall j :: 0 <= j < |a| ==> a[j] == b[j]) && (|a| < |b| ==> b[|a|][0] == 0)
    ensures EntriesFrom(a, i, st) == EntriesFrom(b, i, st)
    decreases |a| - i
  {
    hide ReadSlot;
    if i < |a| && a[i][0] != 0 { EndsFrom(a, b, i + 1, ReadSlot(a[i], i, st).0); }
  }

  /** A cluster of blank slots adds nothing to read. */
  lemma GrownEntries(slots: seq<Slot>, per: nat)
    requires WellEnded(slots) && per >= 2
    ensures var grown := slots + seq(per, _ => Blank);
            && EntriesFrom(grown, 0, NoScan) == EntriesFrom(slots, 0, NoScan) && WellEnded(grown)
            && (NoEnd(slots, 0, |slots|) ==> NoEnd(grown, 0, |slots|)) && forall j :: |slots| <= j < |slots| + 2 ==>
               IsFree(grown[j])
  {
    hide EntriesFrom;
    EndsFrom(slots, slots + seq(per, _ => Blank), 0, NoScan);
  }

  /** Slots past an end mark are not read. */
  lemma Hidden(slots: seq<Slot>, r: seq<Slot>)
    requires !NoEnd(slots, 0, |slots|) && |r| >= |slots| && forall j :: 0 <= j < |slots| ==> r[j] == slots[j]
    ensures EntriesFrom(r, 0, NoScan) == EntriesFrom(slots, 0, NoScan)
  {
    hide EntriesFrom;
    var z :| 0 <= z < |slots| && slots[z][0] == 0;
    EndsFrom(slots[..z], slots, 0, NoScan);
    EndsFrom(slots[..z], r, 0, NoScan);
  }

  /** A directory whose last slot is its only free one, an end mark: the created file is not found. */
  lemma CreateLost(slots: seq<Slot>, per: nat, name: Name, attr: u8, cluster: u32, stamp: Buf)
    requires Printable(name) && Short(name) && per >= 16 && |stamp| == 4 && PlainAttr(attr) && Lookup(slots, name).None?
    requires |slots| > 0 && slots[|slots| - 1][0] == 0 && forall j :: 0 <= j < |slots| - 1 ==> !IsFree(slots[j])
    ensures CreateEntry(slots, per, true, name, attr, cluster, stamp).Some?
    ensures Lookup(Created(slots, per, name, attr, cluster, stamp), name).None?
  {
    hide CreateEntry, Created, Lookup, FindRun, Short, SameName;
    NoRun(slots, 0);
    CreateLookupIff(slots, per, name, attr, cluster, stamp);
  }

  lemma {:induction false} NoRun(slots: seq<Slot>, i: nat)
    requires i <= |slots| && forall j :: 0 <= j < |slots| - 1 ==> !IsFree(slots[j])
    ensures FindRun(slots, i, 0, 2).None?
    decreases |slots| - i
  {
    if i + 1 < |slots| { NoRun(slots, i + 1); }
  }

  // ---------------------------------------------------------------- unlink

  /** The loop of unlink: slots `i` to `k`, both included, marked deleted. */
  function MarkDeleted(slots: seq<Slot>, i: nat, k: nat): (r: seq<Slot>)
    requires i <= k < |slots|
    ensures |r| == |slots|
    ensures forall j :: 0 <= j < |slots| ==> r[j] == if i <= j <= k then slots[j][0 := Deleted] else slots[j]
    decreases k - i
  {
    var r := slots[i := slots[i][0 := Deleted]];
    if i == k then r else MarkDeleted(r, i + 1, k)
  }

  /** Where an entry of the list was read. */
  lemma {:induction false} EntryAt(slots: seq<Slot>, i: nat, st: Scan, e: DirEntry)
    requires i <= |slots| && e in EntriesFrom(slots, i, st)
    ensures i <= e.at < |slots| && NoEnd(slots, i, e.at + 1)
            && ReadSlot(slots[e.at], e.at, ScanTo(slots, i, e.at, st)).1 == Some(e)
    decreases |slots| - i
  {
    hide ReadSlot, ScanTo;
    var (st2, o) := ReadSlot(slots[i], i, st);
    if o == Some(e) {
      EmitsHere(slots[i], i, st, e);
      ScanNone(slots, i, st);
    } else {
      assert e in EntriesFrom(slots, i + 1, st2);
      EntryAt(slots, i + 1, st2, e);
      ScanUnfold(slots, i, e.at, st);
    }
  }

  lemma EmitsHere(raw: Slot, i: nat, st: Scan, e: DirEntry)
    requires ReadSlot(raw, i, st).1 == Some(e)
    ensures e.at == i && e.from == (if st.start.Some? then st.start.value else i) && ReadSlot(raw, i, st).0 == NoScan
  {
  }

  lemma ScanUnfold(slots: seq<Slot>, i: nat, k: nat, st: Scan)
    requires i < k <= |slots|
    ensures ScanTo(slots, i, k, st) == ScanTo(slots, i + 1, k, ReadSlot(slots[i], i, st).0)
  {
  }

  /** A pending start is followed by long-name slots only. */
  lemma {:induction false} PendingStart(slots: seq<Slot>, k: nat)
    requires k <= |slots|
    ensures var st := ScanTo(slots, 0, k, NoScan);
            st.start.Some? ==> st.start.value < k && forall j :: st.start.value <= j < k ==> IsLfn(slots[j])
    decreases k
  {
    hide ScanTo, Chars, UpToZero, ParseSfn, OnlyChars;
    ScanNone(slots, 0, NoScan);
    if k > 0 {
      PendingStart(slots, k - 1);
      ScanStep(slots, 0, k - 1, NoScan);
    }
  }

  lemma {:induction false} LfnSilent(slots: seq<Slot>, i: nat, k: nat, st: Scan)
    requires i <= k <= |slots| && forall j :: i <= j < k ==> IsLfn(slots[j])
    ensures Between(slots, i, k, st) == []
    decreases k - i
  {
    hide ReadSlot;
    if i < k {
      LfnEmitsNothing(slots[i], i, st);
      LfnSilent(slots, i + 1, k, ReadSlot(slots[i], i, st).0);
    }
  }

  lemma LfnEmitsNothing(raw: Slot, i: nat, st: Scan)
    requires IsLfn(raw)
    ensures ReadSlot(raw, i, st).1 == None
  {
  }

  /** The list of entries around the entry `e`, and what is left of it once its slots are marked deleted. */
  lemma EntriesUnlinked(slots: seq<Slot>, e: DirEntry) returns (a: seq<DirEntry>, b: seq<DirEntry>)
    requires e in EntriesFrom(slots, 0, NoScan)
    ensures e.from <= e.at < |slots|
    ensures EntriesFrom(slots, 0, NoScan) == a + [e] + b
            && EntriesFrom(MarkDeleted(slots, e.from, e.at), 0, NoScan) == a + b
  {
    hide ReadSlot, ScanTo, Between, EntriesFrom, MarkDeleted;
    EntryAt(slots, 0, NoScan, e);
    var k := e.at;
    var st := ScanTo(slots, 0, k, NoScan);
    EmitsHere(slots[k], k, st, e);
    PendingStart(slots, k);
    var r := MarkDeleted(slots, e.from, k);
    a, b := Between(slots, 0, e.from, NoScan), EntriesFrom(slots, k + 1, NoScan);
    var sf := ScanTo(slots, 0, e.from, NoScan);
    EntriesSplit(slots, 0, e.from, NoScan);
    EntriesSplit(slots, e.from, k + 1, sf);
    ScanJoin(slots, 0, e.from, k, NoScan);
    LfnSilent(slots, e.from, k, sf);
    ScanStep(slots, e.from, k, sf);
    assert Between(slots, e.from, k + 1, sf) == [e] by { assert Opt(Some(e)) == [e]; }
    SamePrefix(slots, r, 0, e.from, NoScan);
    EntriesSplit(r, 0, e.from, NoScan);
    DeletedScan(r, e.from, k + 1, sf);
    EntriesSplit(r, e.from, k + 1, sf);
    SameSuffix(slots, r, k + 1, NoScan);
  }

  lemma {:induction false} ScanJoin(slots: seq<Slot>, i: nat, m: nat, k: nat, st: Scan)
    requires i <= m <= k <= |slots|
    ensures ScanTo(slots, i, k, st) == ScanTo(slots, m, k, ScanTo(slots, i, m, st))
    decreases m - i
  {
    hide ReadSlot;
    if i < m { ScanJoin(slots, i + 1, m, k, ReadSlot(slots[i], i, st).0); }
  }

  /** The directory after unlink of `name`, or None when it is not there. */
  function Unlinked(slots: seq<Slot>, name: Name): Option<seq<Slot>> {
    match Lookup(slots, name)
    case None => None
    case Some(e) => if e.from <= e.at < |slots| then Some(MarkDeleted(slots, e.from, e.at)) else None
  }

  /** unlink removes the entry that lookup finds and no other: other names resolve as before, the name itself is gone
      exactly when one entry answered to it, and a directory that was well ended stays so. */
  lemma UnlinkLookup(slots: seq<Slot>, name: Name) returns (a: seq<DirEntry>, b: seq<DirEntry>)
    requires Lookup(slots, name).Some?
    ensures Unlinked(slots, name).Some?
    ensures EntriesFrom(slots, 0, NoScan) == a + [Lookup(slots, name).value] + b
    ensures EntriesFrom(Unlinked(slots, name).value, 0, NoScan) == a + b
    ensures Lookup(Unlinked(slots, name).value, name).None? <==> CountName(EntriesFrom(slots, 0, NoScan), name) == 1
    ensures forall m :: !SameName(Lookup(slots, name).value.name, m) ==>
            Lookup(Unlinked(slots, name).value, m) == Lookup(slots, m)
    ensures WellEnded(slots) ==> WellEnded(Unlinked(slots, name).value)
  {
    hide EntriesFrom, SameName, MarkDeleted, WellEnded;
    var e := Lookup(slots, name).value;
    a, b := EntriesUnlinked(slots, e);
    FoundSame(EntriesFrom(slots, 0, NoScan), name);
    CountInserted(a, e, b, name);
    CountZero(a + b, name);
    if WellEnded(slots) { UnlinkedEnds(slots, e); }
    forall m | !SameName(e.name, m)
        ensures Lookup(Unlinked(slots, name).value, m) == Lookup(slots, m) { FindInserted(a, e, b, m); }
  }

  lemma {:induction false} FoundSame(es: seq<DirEntry>, name: Name)
    requires FindIn(es, name).Some?
    ensures SameName(FindIn(es, name).value.name, name)
  {
    hide SameName;
    if es != [] && !SameName(es[0].name, name) { FoundSame(es[1..], name); }
  }

  /** The slots of an entry come before the end of the directory. */
  lemma UnlinkedEnds(slots: seq<Slot>, e: DirEntry)
    requires WellEnded(slots) && e in EntriesFrom(slots, 0, NoScan) && e.from <= e.at < |slots|
    ensures WellEnded(MarkDeleted(slots, e.from, e.at))
  {
    hide EntriesFrom, ReadSlot, MarkDeleted;
    EntryAt(slots, 0, NoScan, e);
    var r := MarkDeleted(slots, e.from, e.at);
    forall i, j | 0 <= i < j < |r| && r[i][0] == 0 ensures r[j][0] == 0 {
      assert slots[i][0] == 0;
    }
  }

  /** Two entries with one name, each made by create_dir_entry: after unlink the second one answers to it. */
  lemma NameTwice(name: Name, attr: u8, cluster: u32, stamp: Buf)
    requires Printable(name) && Short(name) && |stamp| == 4 && PlainAttr(attr)
    ensures Count(name) == 1 && BuildSfn(name).Some?
    ensures var new_ := NewSlots(name, BuildSfn(name).value, attr, cluster, stamp);
            var slots := WriteAt(WriteAt(seq(4, _ => Blank), 0, new_), 2, new_);
            && Lookup(slots, name).Some? && Unlinked(slots, name).Some?
               && Lookup(Unlinked(slots, name).value, name).Some?
  {
    hide EntriesFrom, NewSlots, FindIn, SameName, IsName, Short, MarkDeleted, BuildSfn, Printable, PlainAttr, WriteAt,
         CountName, WellEnded;
    BuiltShort(name);
    var sfn := BuildSfn(name).value;
    TwoListed(name, sfn, attr, cluster, stamp);
    var new_ := NewSlots(name, sfn, attr, cluster, stamp);
    var twice := WriteAt(WriteAt(seq(4, _ => Blank), 0, new_), 2, new_);
    CountZero(EntriesFrom(twice, 0, NoScan), name);
    var a, b := UnlinkLookup(twice, name);
  }

  lemma TwoListed(name: Name, sfn: Buf, attr: u8, cluster: u32, stamp: Buf)
    requires Printable(name) && Short(name) && |stamp| == 4 && PlainAttr(attr) && BuildSfn(name) == Some(sfn)
    ensures Count(name) == 1
    ensures var new_ := NewSlots(name, sfn, attr, cluster, stamp);
            CountName(EntriesFrom(WriteAt(WriteAt(seq(4, _ => Blank), 0, new_), 2, new_), 0, NoScan), name) >= 2
  {
    hide EntriesFrom, NewSlots, SameName, IsName, Short, Between, BuildSfn, Printable, PlainAttr, LfnSlot, SfnSlot,
         Checksum, CountName;
    ShortIsName(name);
    var new_ := NewSlots(name, sfn, attr, cluster, stamp);
    var empty := seq(4, _ => Blank);
    var once := WriteAt(empty, 0, new_);
    SlotsAt(once, 0, name, sfn, attr, cluster, stamp);
    EntriesCreated(empty, once, 0, name, sfn, attr, cluster, stamp);
    var twice := WriteAt(once, 2, new_);
    EntriesCreated(once, twice, 2, name, sfn, attr, cluster, stamp);
    var x, y := DirEntry(name, attr, cluster as int, 0, 0, 1), DirEntry(name, attr, cluster as int, 0, 2, 3);
    Reflexive(name);
    CountInserted(Between(empty, 0, 0, NoScan), x, EntriesFrom(empty, 2, NoScan), name);
    CountInserted(Between(once, 0, 2, NoScan), y, EntriesFrom(once, 4, NoScan), name);
  }

  lemma BuiltShort(name: Name)
    requires Printable(name) && Short(name)
    ensures BuildSfn(name).Some?
  {
  }

  lemma Reflexive(name: Name)
    ensures SameName(name, name)
  {
  }

  /** A directory with the file "A" twice. */
  lemma TwiceA()
    ensures Printable([65]) && Short([65]) && Count([65]) == 1 && BuildSfn([65]).Some?
    ensures var new_ := NewSlots([65], BuildSfn([65]).value, 0x20, 3, Zeros(4));
            var slots := WriteAt(WriteAt(seq(4, _ => Blank), 0, new_), 2, new_);
            Lookup(slots, [65]).Some? && Unlinked(slots, [65]).Some? && Lookup(Unlinked(slots, [65]).value, [65]).Some?
  {
    hide EntriesFrom, NewSlots, FindIn, WriteAt, MarkDeleted, BuildSfn;
    assert LastDot([65], 1) == LastDot([65], 0);
    assert Base([65]) == [65] && Ext([65]) == [];
    NameTwice([65], 0x20, 3, Zeros(4));
  }

  /** Creating a fitting absent name where it can be read and unlinking it leaves every lookup as it was. */
  lemma UnlinkUndoesCreate(slots: seq<Slot>, per: nat, name: Name, attr: u8, cluster: u32, stamp: Buf)
    requires Printable(name) && Short(name) && per >= 16 && |stamp| == 4 && PlainAttr(attr)
    requires WellEnded(slots) && Lookup(slots, name).None? && Readable(slots)
    ensures var r := Unlinked(Created(slots, per, name, attr, cluster, stamp), name);
            && r.Some? && Lookup(r.value, name).None? && WellEnded(r.value)
            && forall m :: !SameName(name, m) ==> Lookup(r.value, m) == Lookup(slots, m)
  {
    hide Created, Readable, Short, SameName, WellEnded, Unlinked, EntriesFrom;
    CreateLookupIff(slots, per, name, attr, cluster, stamp);
    var mid := Created(slots, per, name, attr, cluster, stamp);
    var a, b := UnlinkLookup(mid, name);
  }

  /** A listing is in the order of the slots. */
  lemma {:induction false} ListedInOrder(slots: seq<Slot>, i: nat, st: Scan)
    requires i <= |slots|
    ensures forall k :: 0 <= k < |EntriesFrom(slots, i, st)| ==> i <= EntriesFrom(slots, i, st)[k].at < |slots|
    ensures forall k, m :: 0 <= k < m < |EntriesFrom(slots, i, st)| ==>
              EntriesFrom(slots, i, st)[k].at < EntriesFrom(slots, i, st)[m].at
    decreases |slots| - i
  {
    hide ReadSlot;
    if i < |slots| && slots[i][0] != 0 {
      ReadElsewhere(slots[i], i, st);
      ListedInOrder(slots, i + 1, ReadSlot(slots[i], i, st).0);
    }
  }

  // ---------------------------------------------------------------- a size field rewritten

  /** The entry read from slot `j` has another size. */
  function Resized(es: seq<DirEntry>, j: nat, size: u32): (r: seq<DirEntry>)
    ensures |r| == |es| && forall i :: 0 <= i < |es| ==> r[i] == ResizedOne(es[i], j, size)
  {
    seq(|es|, i requires 0 <= i < |es| => ResizedOne(es[i], j, size))
  }

  function ResizedOne(e: DirEntry, j: nat, size: u32): DirEntry { if e.at == j then e.(size := size) else e }

  lemma ReadResized(raw: Slot, i: nat, st: Scan, size: u32)
    requires raw[11] != AttrLfn
    ensures var (a, x), (b, y) := ReadSlot(raw, i, st), ReadSlot(PutU32(raw, 28, size), i, st);
            b == a && y == (if x.Some? then Some(x.value.(size := size)) else None) && (x.Some? ==> x.value.at == i)
  {
    hide PutU32, U32At, TrimEnd, Wide, OnlyChars, UpToZero;
    var r := PutU32(raw, 28, size);
    assert r[..8] == raw[..8] && r[8..11] == raw[8..11];
  }

  lemma ReadElsewhere(raw: Slot, i: nat, st: Scan)
    ensures var e := ReadSlot(raw, i, st).1; e.Some? ==> e.value.at == i
  {
    hide ParseSfn, OnlyChars, UpToZero, U32At, U16At;
  }

  /** Rewriting the size field of slot `j` changes the size of the entry read there, and nothing else of the
      listing. */
  lemma {:induction false} ResizedFrom(slots: seq<Slot>, i: nat, st: Scan, j: nat, size: u32)
    requires i <= |slots| && j < |slots| && slots[j][11] != AttrLfn
    ensures EntriesFrom(slots[j := PutU32(slots[j], 28, size)], i, st) == Resized(EntriesFrom(slots, i, st), j, size)
    decreases |slots| - i
  {
    hide ReadSlot, PutU32, U32At;
    var now := slots[j := PutU32(slots[j], 28, size)];
    if i < |slots| && slots[i][0] != 0 {
      var (st2, e) := ReadSlot(slots[i], i, st);
      ReadElsewhere(slots[i], i, st);
      if i == j { ReadResized(slots[i], i, st, size); }
      ResizedFrom(slots, i + 1, st2, j, size);
    }
  }

  lemma {:induction false} FindResized(es: seq<DirEntry>, j: nat, size: u32, name: Name)
    ensures FindIn(Resized(es, j, size), name) ==
            match FindIn(es, name) case None => None case Some(e) => Some(ResizedOne(e, j, size))
  {
    hide SameName;
    if es != [] {
      assert Resized(es, j, size)[1..] == Resized(es[1..], j, size);
      FindResized(es[1..], j, size, name);
    }
  }

  lemma LookupResized(slots: seq<Slot>, j: nat, size: u32, name: Name)
    requires j < |slots| && slots[j][11] != AttrLfn
    ensures Lookup(slots[j := PutU32(slots[j], 28, size)], name) ==
            match Lookup(slots, name) case None => None case Some(e) => Some(ResizedOne(e, j, size))
  {
    hide EntriesFrom, FindIn, Resized, PutU32;
    ResizedFrom(slots, 0, NoScan, j, size);
    FindResized(EntriesFrom(slots, 0, NoScan), j, size, name);
  }
}
