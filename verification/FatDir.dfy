/** FAT32 directories as sequences of 32-byte slots (fs/src/fat32/mod.rs:178-258, 343-433, 516-531): the
    reader that gathers long-name slots, the writer, and unlink. */
module FatDir {
  import opened Arith
  import opened Bytes

  type Slot = b: Buf | |b| == 32 witness Zeros(32)

  /** UTF-16 code units; the names written here have no surrogates, so units are characters. */
  type Name = seq<u16>

  const AttrLfn: u8 := 0x0F
  const Deleted: u8 := 0xE5
  const Dot: Name := [46]
  const DotDot: Name := [46, 46]

  // ---------------------------------------------------------------- reading

  /** Where the 13 characters of a long-name slot are. */
  function CharOffset(i: nat): (r: nat)
    requires i < 13
    ensures r + 2 <= 32 && r != 0 && (r + 2 <= 11 || 14 <= r)
  {
    if i < 5 then 1 + 2 * i else if i < 11 then 14 + 2 * (i - 5) else 28 + 2 * (i - 11)
  }

  /** read_lfn_chars. */
  function Chars(raw: Slot): (r: Name)
    ensures |r| == 13
  {
    seq(13, i requires 0 <= i < 13 => U16At(raw, CharOffset(i)))
  }

  /** take_while(|c| c != 0). */
  function UpToZero(s: Name): (r: Name)
    ensures r <= s && 0 !in r
  {
    if s == [] || s[0] == 0 then [] else [s[0]] + UpToZero(s[1..])
  }

  function IsChar(c: u16): bool { !(0xD800 <= c <= 0xDFFF) }

  /** filter_map(char::from_u32). */
  function OnlyChars(s: Name): (r: Name) {
    if s == [] then [] else (if IsChar(s[0]) then [s[0]] else []) + OnlyChars(s[1..])
  }

  function TrimEnd(s: Buf): Buf {
    if s == [] || s[|s| - 1] != 32 then s else TrimEnd(s[..|s| - 1])
  }

  function Wide(s: Buf): (r: Name)
    ensures |r| == |s|
  {
    seq(|s|, i requires 0 <= i < |s| => s[i])
  }

  /** parse_sfn, for names of ASCII bytes. */
  function ParseSfn(raw: Slot): Name {
    var name, ext := Wide(TrimEnd(raw[..8])), Wide(TrimEnd(raw[8..11]));
    if ext == [] then name else name + Dot + ext
  }

  /** A directory entry and the slots it occupies: its long-name slots start at `from`, its short one is `at`. */
  datatype DirEntry = DirEntry(name: Name, attr: u8, cluster: nat, size: u32, from: nat, at: nat)

  /** The pending long name and the slot where it starts. */
  datatype Scan = Scan(lfn: Name, start: Option<nat>)

  const NoScan := Scan([], None)

  predicate IsLfn(raw: Slot) { raw[0] != Deleted && raw[11] == AttrLfn }

  predicate IsLast(raw: Slot) { raw[0] / 64 % 2 == 1 }

  predicate IsVolume(raw: Slot) { raw[11] / 8 % 2 == 1 && raw[11] / 16 % 2 == 0 }

  /** One turn of the reader's loop on a slot that does not end the directory. */
  function ReadSlot(raw: Slot, i: nat, st: Scan): (r: (Scan, Option<DirEntry>)) {
    if raw[0] == Deleted then (NoScan, None)
    else if raw[11] == AttrLfn then
      var base := if IsLast(raw) then Scan([], Some(i)) else st;
      (Scan(UpToZero(Chars(raw)) + base.lfn, base.start), None)
    else if IsVolume(raw) then (NoScan, None)
    else
      var name := if st.lfn != [] then OnlyChars(UpToZero(st.lfn)) else ParseSfn(raw);
      if name == Dot || name == DotDot then (NoScan, None)
      else
        (NoScan, Some(DirEntry(name, raw[11], 0x1_0000 * U16At(raw, 20) as int + U16At(raw, 26) as int, U32At(raw, 28),
          if st.start.Some? then st.start.value else i, i)))
  }

  function Opt<T>(o: Option<T>): seq<T> { if o.Some? then [o.value] else [] }

  /** read_dir_entries from slot `i` on. */
  function EntriesFrom(slots: seq<Slot>, i: nat, st: Scan): seq<DirEntry>
    requires i <= |slots|
    decreases |slots| - i
  {
    if i == |slots| || slots[i][0] == 0 then []
    else
      var (st2, e) := ReadSlot(slots[i], i, st);
      Opt(e) + EntriesFrom(slots, i + 1, st2)
  }

  function Lower(c: u16): u16 { if 65 <= c <= 90 then c + 32 else c }

  /** eq_ignore_ascii_case. */
  predicate SameName(a: Name, b: Name) {
    |a| == |b| && forall i :: 0 <= i < |a| ==> Lower(a[i]) == Lower(b[i])
  }

  function FindIn(es: seq<DirEntry>, name: Name): (r: Option<DirEntry>)
    ensures r.Some? ==> r.value in es && SameName(r.value.name, name)
    ensures r.None? ==> forall e :: e in es ==> !SameName(e.name, name)
  {
    if es == [] then None else if SameName(es[0].name, name) then Some(es[0]) else FindIn(es[1..], name)
  }

  /** find_entry_in_dir. */
  function Lookup(slots: seq<Slot>, name: Name): Option<DirEntry> {
    FindIn(EntriesFrom(slots, 0, NoScan), name)
  }

  // ---------------------------------------------------------------- splitting a scan

  /** No end mark among slots `i` to `k`. */
  ghost predicate NoEnd(slots: seq<Slot>, i: nat, k: nat)
    requires k <= |slots|
  {
    forall j :: i <= j < k ==> slots[j][0] != 0
  }

  function ScanTo(slots: seq<Slot>, i: nat, k: nat, st: Scan): Scan
    requires i <= k <= |slots|
    decreases k - i
  {
    if i == k then st else ScanTo(slots, i + 1, k, ReadSlot(slots[i], i, st).0)
  }

  function Between(slots: seq<Slot>, i: nat, k: nat, st: Scan): seq<DirEntry>
    requires i <= k <= |slots|
    decreases k - i
  {
    if i == k then [] else Opt(ReadSlot(slots[i], i, st).1) + Between(slots, i + 1, k, ReadSlot(slots[i], i, st).0)
  }

  lemma {:induction false} EntriesSplit(slots: seq<Slot>, i: nat, k: nat, st: Scan)
    requires i <= k <= |slots| && NoEnd(slots, i, k)
    ensures EntriesFrom(slots, i, st) == Between(slots, i, k, st) + EntriesFrom(slots, k, ScanTo(slots, i, k, st))
    decreases k - i
  {
    hide ReadSlot;
    if i < k { EntriesSplit(slots, i + 1, k, ReadSlot(slots[i], i, st).0); }
  }

  lemma {:induction false} SamePrefix(a: seq<Slot>, b: seq<Slot>, i: nat, k: nat, st: Scan)
    requires i <= k <= |a| && k <= |b| && forall j :: i <= j < k ==> a[j] == b[j]
    ensures ScanTo(a, i, k, st) == ScanTo(b, i, k, st) && Between(a, i, k, st) == Between(b, i, k, st)
    decreases k - i
  {
    hide ReadSlot;
    if i < k { SamePrefix(a, b, i + 1, k, ReadSlot(a[i], i, st).0); }
  }

  lemma {:induction false} SameSuffix(a: seq<Slot>, b: seq<Slot>, i: nat, st: Scan)
    requires i <= |a| == |b| && forall j :: i <= j < |a| ==> a[j] == b[j]
    ensures EntriesFrom(a, i, st) == EntriesFrom(b, i, st)
    decreases |a| - i
  {
    hide ReadSlot;
    if i < |a| && a[i][0] != 0 { SameSuffix(a, b, i + 1, ReadSlot(a[i], i, st).0); }
  }

  lemma {:induction false} FindAppend(a: seq<DirEntry>, b: seq<DirEntry>, name: Name)
    ensures FindIn(a + b, name) == if FindIn(a, name).Some? then FindIn(a, name) else FindIn(b, name)
  {
    if a == [] {
      assert a + b == b;
    } else {
      assert (a + b)[1..] == a[1..] + b;
      FindAppend(a[1..], b, name);
    }
  }

  // ---------------------------------------------------------------- writing a name

  /** Number of long-name slots of a name. */
  function Count(name: Name): nat { (|name| + 12) / 13 }

  /** The name ended by 0 and filled with 0xFFFF up to a multiple of 13 characters. */
  function Padded(name: Name): (r: Name)
    ensures |r| == 13 * Count(name) && name <= r && (|name| < |r| ==> r[|name|] == 0)
  {
    if |name| % 13 == 0 then name else name + [0] + seq(12 - |name| % 13, _ => 0xFFFF)
  }

  /** The first `k` characters of a chunk in their places. */
  function PutChars(b: Slot, chunk: Name, k: nat): (r: Slot)
    requires |chunk| == 13 && k <= 13
    ensures forall i :: 0 <= i < k ==> U16At(r, CharOffset(i)) == chunk[i]
    ensures r[0] == b[0] && r[11] == b[11] && r[12] == b[12] && r[13] == b[13] && r[26] == b[26] && r[27] == b[27]
  {
    if k == 0 then b
    else
      var c := PutChars(b, chunk, k - 1);
      var r := PutU16(c, CharOffset(k - 1), chunk[k - 1]);
      assert forall i :: 0 <= i < k - 1 ==> U16At(r, CharOffset(i)) == U16At(c, CharOffset(i));
      r
  }

  /** Rotate right. */
  function Rotated(sum: u8): u8 { sum / 2 + sum % 2 * 128 }

  function Turn(sum: u8, c: u8): u8 { (Rotated(sum) + c) % 0x100 }

  lemma RotatedApart(s: u8, t: u8)
    requires Rotated(s) == Rotated(t)
    ensures s == t
  {
    assert 2 * (Rotated(s) % 128) + Rotated(s) / 128 == s && 2 * (Rotated(t) % 128) + Rotated(t) / 128 == t;
  }

  lemma TurnApart(s: u8, t: u8, c: u8, d: u8)
    requires (s == t) != (c == d)
    ensures Turn(s, c) != Turn(t, d)
  {
    hide Rotated;
    if Rotated(s) == Rotated(t) { RotatedApart(s, t); }
  }

  /** sfn_checksum. */
  function Checksum(sfn: Buf): u8 {
    if sfn == [] then 0 else Turn(Checksum(sfn[..|sfn| - 1]), sfn[|sfn| - 1])
  }

  /** A change of one byte never goes unnoticed. */
  lemma {:induction false} ChecksumDetects(a: Buf, k: nat, v: u8)
    requires k < |a| && v != a[k]
    ensures Checksum(a[k := v]) != Checksum(a)
    decreases |a|
  {
    hide Turn;
    var n, c := |a| - 1, a[k := v];
    if k < n {
      assert c[..n] == a[..n][k := v];
      ChecksumDetects(a[..n], k, v);
    } else {
      assert c[..n] == a[..n];
    }
    TurnApart(Checksum(c[..n]), Checksum(a[..n]), c[n], a[n]);
  }

  function LfnBytes(flag: u8, chk: u8, chunk: Name): (r: Slot)
    requires |chunk| == 13
    ensures r[0] == flag && r[11] == AttrLfn && r[12] == 0 && r[13] == chk && r[26] == 0 && r[27] == 0
    ensures Chars(r) == chunk
  {
    hide PutChars;
    var b: Slot := Zeros(32)[0 := flag][11 := AttrLfn][13 := chk];
    var r := PutChars(b, chunk, 13);
    assert Chars(r) == chunk;
    r
  }

  /** Sequence byte of chunk `idx` of `n`: numbered from 1, the last one flagged with 0x40. */
  function SeqByte(idx: nat, n: nat): (r: u8)
    requires idx < n <= 64
    ensures r != 0 && r != Deleted && (r / 64 % 2 == 1 <==> idx == n - 1) && r as int % 64 == (idx + 1) % 64
  {
    if idx == n - 1 && idx + 1 < 64 then idx + 1 + 64 else idx + 1
  }

  function LfnSlot(name: Name, idx: nat, chk: u8): (r: Slot)
    requires idx < Count(name) <= 64
    ensures IsLfn(r) && r[0] != 0 && (IsLast(r) <==> idx == Count(name) - 1)
    ensures r[0] as int % 64 == (idx + 1) % 64 && r[12] == 0 && r[13] == chk && r[26] == 0 && r[27] == 0
    ensures Chars(r) == Padded(name)[13 * idx..13 * (idx + 1)]
  {
    hide LfnBytes, Chars, SeqByte;
    LfnBytes(SeqByte(idx, Count(name)), chk, Padded(name)[13 * idx..13 * (idx + 1)])
  }

  ghost predicate IsName(name: Name) {
    name != [] && Count(name) <= 64 && forall i :: 0 <= i < |name| ==> name[i] != 0 && IsChar(name[i])
  }

  lemma {:induction false} UpToZeroIs(s: Name, k: nat)
    requires k <= |s| && (forall i :: 0 <= i < k ==> s[i] != 0) && (k < |s| ==> s[k] == 0)
    ensures UpToZero(s) == s[..k]
    decreases k
  {
    if k > 0 {
      UpToZeroIs(s[1..], k - 1);
      assert s[..k] == [s[0]] + s[1..][..k - 1];
    }
  }

  lemma {:induction false} OnlyCharsIs(s: Name)
    requires forall i :: 0 <= i < |s| ==> IsChar(s[i])
    ensures OnlyChars(s) == s
  {
    if s != [] { OnlyCharsIs(s[1..]); }
  }

  /** What a long-name slot gives back: its part of the name. */
  lemma ChunkBack(name: Name, idx: nat, chk: u8)
    requires IsName(name) && idx < Count(name)
    ensures UpToZero(Chars(LfnSlot(name, idx, chk))) == name[13 * idx..Min(13 * (idx + 1), |name|)]
  {
    hide LfnSlot;
    var chunk := Padded(name)[13 * idx..13 * (idx + 1)];
    var end := Min(13 * (idx + 1), |name|);
    UpToZeroIs(chunk, end - 13 * idx);
    assert chunk[..end - 13 * idx] == name[13 * idx..end];
  }

  /** The slots of a name as the loop of create_dir_entry writes them, last chunk first. */
  function EncodeLfn(name: Name, chk: u8): (r: seq<Slot>)
    requires Count(name) <= 64
    ensures |r| == Count(name)
  {
    seq(Count(name), j requires 0 <= j < Count(name) => LfnSlot(name, Count(name) - 1 - j, chk))
  }

  /** The long-name slots of `name` are at `at`. */
  ghost predicate EncodedAt(slots: seq<Slot>, at: nat, name: Name, chk: u8) {
    && Count(name) <= 64 && at + Count(name) <= |slots|
    && forall i :: at <= i < at + Count(name) ==> slots[i] == LfnSlot(name, at + Count(name) - 1 - i, chk)
  }

  /** One long-name slot read. */
  lemma LfnRead(name: Name, idx: nat, chk: u8, i: nat, st: Scan)
    requires IsName(name) && idx < Count(name)
    requires idx < Count(name) - 1 ==> st.lfn == name[13 * (idx + 1)..]
    ensures ReadSlot(LfnSlot(name, idx, chk), i, st) == (Scan(name[13 * idx..], if idx == Count(name) - 1
            then Some(i) else st.start), None)
  {
    hide LfnSlot, Chars, UpToZero;
    ChunkBack(name, idx, chk);
    if idx == Count(name) - 1 {
      assert name[13 * idx..|name|] + [] == name[13 * idx..];
    } else {
      assert name[13 * idx..13 * (idx + 1)] + name[13 * (idx + 1)..] == name[13 * idx..];
    }
  }

  /** After `j` long-name slots the reader holds the tail of the name. */
  lemma {:induction false} LfnScan(slots: seq<Slot>, at: nat, name: Name, chk: u8, j: nat, st: Scan)
    requires IsName(name) && 0 < j <= Count(name) && EncodedAt(slots, at, name, chk)
    ensures ScanTo(slots, at, at + j, st) == Scan(name[13 * (Count(name) - j)..], Some(at))
    ensures Between(slots, at, at + j, st) == []
    decreases j
  {
    hide LfnSlot, ReadSlot, ScanTo, Between, IsName, EncodedAt, Chars, Padded, IsLfn, IsLast;
    var n := Count(name);
    EncodedSlot(slots, at, name, chk, at + j - 1);
    ScanNone(slots, at, st);
    if j > 1 { LfnScan(slots, at, name, chk, j - 1, st); }
    ScanStep(slots, at, at + j - 1, st);
    LfnRead(name, n - j, chk, at + j - 1, ScanTo(slots, at, at + j - 1, st));
  }

  lemma EncodedSlot(slots: seq<Slot>, at: nat, name: Name, chk: u8, i: nat)
    requires EncodedAt(slots, at, name, chk) && at <= i < at + Count(name)
    ensures i < |slots| && Count(name) <= 64 && slots[i] == LfnSlot(name, at + Count(name) - 1 - i, chk)
  {
  }

  lemma ScanNone(slots: seq<Slot>, i: nat, st: Scan)
    requires i <= |slots|
    ensures ScanTo(slots, i, i, st) == st && Between(slots, i, i, st) == []
  {
  }

  lemma {:induction false} ScanStep(slots: seq<Slot>, i: nat, k: nat, st: Scan)
    requires i <= k < |slots|
    ensures var p := ScanTo(slots, i, k, st);
            && ScanTo(slots, i, k + 1, st) == ReadSlot(slots[k], k, p).0
            && Between(slots, i, k + 1, st) == Between(slots, i, k, st) + Opt(ReadSlot(slots[k], k, p).1)
    decreases k - i
  {
    hide ReadSlot;
    if i < k { ScanStep(slots, i + 1, k, ReadSlot(slots[i], i, st).0); }
  }

  /** The short slot of create_dir_entry; `stamp` is the time and date of creation and of change. */
  function SfnSlot(sfn: Buf, attr: u8, cluster: u32, stamp: Buf): (r: Slot)
    requires |sfn| == 11 && |stamp| == 4
    ensures r[..11] == sfn && r[0] == sfn[0] && r[11] == attr && r[14..18] == stamp == r[22..26]
    ensures 0x1_0000 * U16At(r, 20) as int + U16At(r, 26) as int == cluster as int && U32At(r, 28) == 0
  {
    var w := U32Bytes(cluster);
    var r: Slot := sfn + [attr, 0, 0] + stamp + [0, 0, w[2], w[3]] + stamp + [w[0], w[1], 0, 0, 0, 0];
    r
  }

  /** The slots written for one entry. */
  function NewSlots(name: Name, sfn: Buf, attr: u8, cluster: u32, stamp: Buf): (r: seq<Slot>)
    requires Count(name) <= 64 && |sfn| == 11 && |stamp| == 4
    ensures |r| == Count(name) + 1
  {
    EncodeLfn(name, Checksum(sfn)) + [SfnSlot(sfn, attr, cluster, stamp)]
  }

  /** The long-name slots are numbered down to 1 and carry the checksum of the short name that follows them. */
  lemma NewSlotsFormat(name: Name, sfn: Buf, attr: u8, cluster: u32, stamp: Buf, t: nat)
    requires Count(name) <= 64 && |sfn| == 11 && |stamp| == 4 && t < Count(name)
    ensures var r := NewSlots(name, sfn, attr, cluster, stamp);
            && r[t][13] == Checksum(r[Count(name)][..11]) && r[t][0] as int % 64 == (Count(name) - t) % 64
            && (IsLast(r[t]) <==> t == 0)
  {
    hide LfnSlot, SfnSlot, Checksum, EncodeLfn;
    EncodeAt(name, Checksum(sfn), t);
    var r := NewSlots(name, sfn, attr, cluster, stamp);
    assert r[t] == LfnSlot(name, Count(name) - 1 - t, Checksum(sfn));
  }

  predicate PlainAttr(attr: u8) { attr == 0x20 || attr == 0x10 }

  /** The short slot after a long name. */
  lemma SfnRead(name: Name, sfn: Buf, attr: u8, cluster: u32, stamp: Buf, i: nat, at: nat)
    requires IsName(name) && name != Dot && name != DotDot && |sfn| == 11 && |stamp| == 4 && sfn[0] != Deleted
             && PlainAttr(attr)
    ensures ReadSlot(SfnSlot(sfn, attr, cluster, stamp), i, Scan(name, Some(at))) == (NoScan,
            Some(DirEntry(name, attr, cluster as int, 0, at, i)))
  {
    hide SfnSlot, UpToZero, OnlyChars, U16At, U32At;
    UpToZeroIs(name, |name|);
    assert name[..|name|] == name;
    OnlyCharsIs(name);
  }

  /** Reading the slots written for a name gives the name back, whatever name was pending before. */
  lemma LfnRoundTrip(slots: seq<Slot>, at: nat, name: Name, sfn: Buf, attr: u8, cluster: u32, stamp: Buf, st: Scan)
    requires IsName(name) && name != Dot && name != DotDot && |sfn| == 11 && |stamp| == 4 && sfn[0] != 0
             && sfn[0] != Deleted && PlainAttr(attr)
    requires at + Count(name) + 1 <= |slots|
             && slots[at..at + Count(name) + 1] == NewSlots(name, sfn, attr, cluster, stamp)
    ensures var k := at + Count(name);
            && NoEnd(slots, at, k + 1) && ScanTo(slots, at, k + 1, st) == NoScan
            && Between(slots, at, k + 1, st) == [DirEntry(name, attr, cluster as int, 0, at, k)]
  {
    hide LfnSlot, SfnSlot, ReadSlot, ScanTo, Between, IsName;
    var n := Count(name);
    NameNonempty(name);
    SlotsAt(slots, at, name, sfn, attr, cluster, stamp);
    LfnScan(slots, at, name, Checksum(sfn), n, st);
    assert name[13 * (n - n)..] == name;
    ScanStep(slots, at, at + n, st);
    SfnRead(name, sfn, attr, cluster, stamp, at + n, at);
  }

  lemma NameNonempty(name: Name)
    requires IsName(name)
    ensures 0 < Count(name) <= 64
  {
  }

  lemma SlotsAt(slots: seq<Slot>, at: nat, name: Name, sfn: Buf, attr: u8, cluster: u32, stamp: Buf)
    requires Count(name) <= 64 && |sfn| == 11 && |stamp| == 4 && sfn[0] != 0
    requires at + Count(name) + 1 <= |slots|
             && slots[at..at + Count(name) + 1] == NewSlots(name, sfn, attr, cluster, stamp)
    ensures EncodedAt(slots, at, name, Checksum(sfn)) && slots[at + Count(name)] == SfnSlot(sfn, attr, cluster, stamp)
    ensures NoEnd(slots, at, at + Count(name) + 1)
  {
    hide LfnSlot, SfnSlot, EncodeLfn, Chars, Padded, U16At, U32At, IsLfn, IsLast;
    var n := Count(name);
    var lfn, sfnSlot := EncodeLfn(name, Checksum(sfn)), SfnSlot(sfn, attr, cluster, stamp);
    SliceAt(slots, at, n + 1, lfn + [sfnSlot]);
    assert slots[at + n] == sfnSlot;
    forall i | at <= i < at + n ensures slots[i] == LfnSlot(name, at + n - 1 - i, Checksum(sfn)) && slots[i][0] != 0 {
      assert slots[i] == (lfn + [sfnSlot])[i - at] == lfn[i - at];
      EncodeAt(name, Checksum(sfn), i - at);
    }
  }

  lemma EncodeAt(name: Name, chk: u8, j: nat)
    requires j < Count(name) <= 64
    ensures EncodeLfn(name, chk)[j] == LfnSlot(name, Count(name) - 1 - j, chk)
  {
    hide LfnSlot;
  }

  lemma SliceAt(slots: seq<Slot>, at: nat, n: nat, part: seq<Slot>)
    requires at + n <= |slots| && slots[at..at + n] == part
    ensures |part| == n && forall i :: at <= i < at + n ==> slots[i] == part[i - at]
  {
    forall i | at <= i < at + n ensures slots[i] == part[i - at] { assert slots[at..at + n][i - at] == slots[i]; }
  }
}
