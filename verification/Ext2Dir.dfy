/** Variable-length directory records (fs/src/ext2/dir.rs). */
module Ext2Dir {
  import opened Arith
  import opened Bytes

  // ---------------------------------------------------------------- one record

  function RecIno(b: Buf, o: nat): u32
    requires o + 8 <= |b|
  {
    U32At(b, o)
  }

  function RecLen(b: Buf, o: nat): u16
    requires o + 8 <= |b|
  {
    U16At(b, o + 4)
  }

  function NameLen(b: Buf, o: nat): u8
    requires o + 8 <= |b|
  {
    b[o + 6]
  }

  function RecKind(b: Buf, o: nat): u8
    requires o + 8 <= |b|
  {
    b[o + 7]
  }

  /** `(8 + n + 3) & !3`: the space a record with an `n`-byte name needs. */
  function Needed(n: nat): (r: nat)
    ensures 8 + n <= r < 8 + n + 4 && r % 4 == 0
  {
    (8 + n + 3) / 4 * 4
  }

  /** The name as for_each_entry slices it, cut at the end of the block. */
  function RecName(b: Buf, o: nat): Buf
    requires o + 8 <= |b|
  {
    b[o + 8..o + 8 + Min(NameLen(b, o) as int, |b| - o - 8)]
  }

  /** write_dir_entry. */
  function PutEntry(b: Buf, o: nat, ino: u32, rec: u16, ft: u8, name: Buf): (r: Buf)
    requires |name| < 0x100 && o + 8 + |name| <= |b|
    ensures |r| == |b|
    ensures RecIno(r, o) == ino && RecLen(r, o) == rec && NameLen(r, o) as int == |name| && RecName(r, o) == name
            && RecKind(r, o) == ft
    ensures forall i :: 0 <= i < |b| && !(o <= i < o + 8 + |name|) ==> r[i] == b[i]
  {
    var h := U32Bytes(ino) + U16Bytes(rec) + [|name| as u8, ft];
    HeaderFields(h, ino, rec, |name| as u8, ft);
    var r := Splice(Splice(b, o, h), o + 8, name);
    HeaderCopied(r, o, h);
    assert RecName(r, o) == name;
    r
  }

  lemma HeaderFields(h: Buf, ino: u32, rec: u16, n: u8, ft: u8)
    requires h == U32Bytes(ino) + U16Bytes(rec) + [n, ft]
    ensures |h| == 8 && RecIno(h, 0) == ino && RecLen(h, 0) == rec && NameLen(h, 0) == n && RecKind(h, 0) == ft
  {
  }

  lemma HeaderCopied(b: Buf, o: nat, h: Buf)
    requires |h| == 8 && o + 8 <= |b| && forall i :: 0 <= i < 8 ==> b[o + i] == h[i]
    ensures RecIno(b, o) == RecIno(h, 0) && RecLen(b, o) == RecLen(h, 0) && NameLen(b, o) == NameLen(h, 0)
            && RecKind(b, o) == RecKind(h, 0)
  {
    assert b[o] == h[0] && b[o + 1] == h[1] && b[o + 2] == h[2] && b[o + 3] == h[3];
    assert b[o + 4] == h[4] && b[o + 5] == h[5] && b[o + 6] == h[6] && b[o + 7] == h[7];
  }

  // ---------------------------------------------------------------- a block of records

  /** From `o` on the block is exactly tiled by records whose names fit in them. */
  ghost predicate Tiled(b: Buf, o: nat)
    decreases |b| - o
  {
    || o == |b|
    || (&& o + 8 <= |b|
        && RecLen(b, o) >= 8 && RecLen(b, o) % 4 == 0 && o + RecLen(b, o) as int <= |b|
        && 8 + NameLen(b, o) as int <= RecLen(b, o) as int
        && Tiled(b, o + RecLen(b, o) as int))
  }

  /** What a name stands for: an inode and the type byte of its record. */
  datatype Link = Link(ino: nat, kind: u8)

  datatype Entry = Entry(name: Buf, link: Link)

  /** The live records from `o` on. */
  ghost function Entries(b: Buf, o: nat): seq<Entry>
    requires Tiled(b, o)
    decreases |b| - o
  {
    if o == |b| then []
    else OneEntry(b, o) + Entries(b, o + RecLen(b, o) as int)
  }

  ghost function OneEntry(b: Buf, o: nat): (r: seq<Entry>)
    requires o + 8 <= |b|
    ensures |r| <= 1
  {
    if RecIno(b, o) == 0 then [] else [Entry(RecName(b, o), Link(RecIno(b, o) as int, RecKind(b, o)))]
  }

  /** First entry called `name`. */
  ghost function Find(es: seq<Entry>, name: Buf): Option<Link> {
    if es == [] then None
    else if es[0].name == name then Some(es[0].link)
    else Find(es[1..], name)
  }

  /** All entries but the first one called `name`. */
  ghost function Without(es: seq<Entry>, name: Buf): seq<Entry> {
    if es == [] then []
    else if es[0].name == name then es[1..]
    else [es[0]] + Without(es[1..], name)
  }

  // ---------------------------------------------------------------- the code

  /** for_each_entry with lookup_in_dir's closure: the walk stops at a malformed record. */
  function FindInBlock(b: Buf, o: nat, name: Buf): Option<u32>
    decreases |b| - o
  {
    if o + 8 > |b| then None
    else if RecLen(b, o) < 8 || o + RecLen(b, o) as int > |b| then None
    else if RecIno(b, o) != 0 && RecName(b, o) == name then Some(RecIno(b, o))
    else FindInBlock(b, o + RecLen(b, o) as int, name)
  }

  /** The last record shrinks to the `actual` bytes it needs, and the new entry takes the rest. */
  function SplitLast(b: Buf, o: nat, actual: nat, name: Buf, child: u32, ft: u8): (r: Buf)
    requires |name| < 0x100 && o + 8 <= |b| && 8 <= actual <= RecLen(b, o) as int && o + actual + 8 + |name| <= |b|
    ensures |r| == |b|
  {
    PutEntry(PutU16(b, o + 4, actual), o + actual, child, RecLen(b, o) - actual, ft, name)
  }

  /** The record at `po` absorbs `rec` bytes. */
  function Widen(b: Buf, po: nat, rec: u16): (r: Buf)
    requires po + 8 <= |b|
    ensures |r| == |b|
  {
    PutU16(b, po + 4, (RecLen(b, po) as int + rec as int) % 0x1_0000)
  }

  /** add_entry's walk of one block: only the last record's slack is used. A record that does not
      fit its block or its own length, on which the driver would panic, ends the walk here. */
  function AddInBlock(b: Buf, o: nat, name: Buf, child: u32, ft: u8): (r: Option<Buf>)
    requires |name| < 0x100
    ensures r.Some? ==> |r.value| == |b|
    decreases |b| - o
  {
    if o + 8 > |b| || RecLen(b, o) < 8 then None
    else
      var actual := Needed(NameLen(b, o) as int);
      var next := o + RecLen(b, o) as int;
      if next > |b| || RecLen(b, o) as int < actual then None
      else if next == |b| then
        if RecLen(b, o) as int - actual >= Needed(|name|) then Some(SplitLast(b, o, actual, name, child, ft)) else None
      else AddInBlock(b, next, name, child, ft)
  }

  /** remove_entry's walk of one block: the record is zeroed and its space goes to the record before
      it, unless it is the first of the block. */
  function RemoveInBlock(b: Buf, o: nat, prev: Option<nat>, name: Buf): (r: Option<Buf>)
    requires prev.Some? ==> prev.value + 8 <= |b|
    ensures r.Some? ==> |r.value| == |b|
    decreases |b| - o
  {
    if o + 8 > |b| then None
    else if RecLen(b, o) < 8 || o + RecLen(b, o) as int > |b| then None
    else if RecIno(b, o) != 0 && RecName(b, o) == name then
      var z := PutU32(b, o, 0);
      match prev
      case None => Some(z)
      case Some(po) => Some(Widen(z, po, RecLen(b, o)))
    else RemoveInBlock(b, o + RecLen(b, o) as int, Some(o), name)
  }

  // ---------------------------------------------------------------- what the code does to one block

  /** A record is read from its own bytes only. */
  lemma RecordSame(a: Buf, b: Buf, o: nat)
    requires |a| == |b| && o + 8 <= |b| && 8 + NameLen(b, o) as int <= |b| - o
    requires forall i :: o <= i < o + 8 + NameLen(b, o) as int ==> a[i] == b[i]
    ensures RecIno(a, o) == RecIno(b, o) && RecLen(a, o) == RecLen(b, o) && NameLen(a, o) == NameLen(b, o)
    ensures RecName(a, o) == RecName(b, o) && RecKind(a, o) == RecKind(b, o)
  {
  }

  lemma {:induction false} TiledSame(a: Buf, b: Buf, o: nat)
    requires |a| == |b| && Tiled(b, o) && forall i :: o <= i < |b| ==> a[i] == b[i]
    ensures Tiled(a, o) && Entries(a, o) == Entries(b, o)
    decreases |b| - o
  {
    hide RecIno, RecLen, NameLen, RecName, RecKind;
    if o < |b| {
      RecordSame(a, b, o);
      TiledSame(a, b, o + RecLen(b, o) as int);
    }
  }

  lemma {:induction false} FindInBlockSpec(b: Buf, o: nat, name: Buf)
    requires Tiled(b, o)
    ensures FindInBlock(b, o, name) == (match Find(Entries(b, o), name) case None => None case Some(l) => Some(l.ino))
    decreases |b| - o
  {
    hide RecIno, RecLen, NameLen, RecName, RecKind;
    if o < |b| {
      var next := o + RecLen(b, o) as int;
      FindInBlockSpec(b, next, name);
      FindConcat(OneEntry(b, o), Entries(b, next), name);
    }
  }

  lemma FindConcat(x: seq<Entry>, es: seq<Entry>, name: Buf)
    requires |x| <= 1
    ensures Find(x + es, name) == if |x| == 1 && x[0].name == name then Some(x[0].link) else Find(es, name)
  {
    if |x| == 1 {
      assert (x + es)[1..] == es;
    } else {
      assert x + es == es;
    }
  }

  /** An inserted entry is the last one; the others stay. */
  lemma {:induction false} AddInBlockSpec(b: Buf, o: nat, name: Buf, child: u32, ft: u8)
    requires 1 <= |name| < 0x100 && Tiled(b, o) && |b| < 0x1_0000 && child != 0
    requires AddInBlock(b, o, name, child, ft).Some?
    ensures var r := AddInBlock(b, o, name, child, ft).value;
            && Tiled(r, o) && Entries(r, o) == Entries(b, o) + [Entry(name, Link(child as int, ft))]
            && forall i :: 0 <= i < o ==> r[i] == b[i]
    decreases |b| - o
  {
    hide RecIno, RecLen, NameLen, RecName, RecKind, SplitLast, Entries, OneEntry, Tiled;
    AddUnfold(b, o, name, child, ft);
    var next := o + RecLen(b, o) as int;
    if next >= |b| {
      AddLast(b, o, name, child, ft);
    } else {
      AddInBlockSpec(b, next, name, child, ft);
      var r := AddInBlock(b, next, name, child, ft).value;
      RecordBefore(r, b, o);
      assert OneEntry(b, o) + (Entries(b, next) + [Entry(name, Link(child as int, ft))]) == OneEntry(b, o) + Entries(b,
             next)
             + [Entry(name, Link(child as int, ft))];
    }
  }

  /** Bytes the last record from `o` on could give up. */
  ghost function LastSlack(b: Buf, o: nat): nat
    requires Tiled(b, o) && o < |b|
    decreases |b| - o
  {
    var next := o + RecLen(b, o) as int;
    if next == |b| then RecLen(b, o) as int - Needed(NameLen(b, o) as int) else LastSlack(b, next)
  }

  /** The block takes a name exactly when its last record can give up the space for it. */
  lemma {:induction false} AddInBlockIff(b: Buf, o: nat, name: Buf, child: u32, ft: u8)
    requires |name| < 0x100 && Tiled(b, o) && o < |b|
    ensures AddInBlock(b, o, name, child, ft).Some? <==> LastSlack(b, o) >= Needed(|name|)
    decreases |b| - o
  {
    hide RecIno, RecLen, NameLen, RecName, RecKind, SplitLast;
    var next := o + RecLen(b, o) as int;
    if next < |b| { AddInBlockIff(b, next, name, child, ft); }
  }

  /** Where add_entry's scan goes from a record of a tiled block. */
  lemma AddUnfold(b: Buf, o: nat, name: Buf, child: u32, ft: u8)
    requires |name| < 0x100 && Tiled(b, o) && AddInBlock(b, o, name, child, ft).Some?
    ensures o + 8 <= |b|
    ensures o + RecLen(b, o) as int < |b| ==>
            AddInBlock(b, o, name, child, ft) == AddInBlock(b, o + RecLen(b, o) as int, name, child, ft)
    ensures o + RecLen(b, o) as int < |b| ==>
            Tiled(b, o + RecLen(b, o) as int) && Entries(b, o) == OneEntry(b, o) + Entries(b, o + RecLen(b, o) as int)
    ensures o + RecLen(b, o) as int >= |b| ==>
              && o + RecLen(b, o) as int == |b| && RecLen(b, o) as int - Needed(NameLen(b, o) as int) >= Needed(|name|)
              && AddInBlock(b, o, name, child, ft) == Some(SplitLast(b, o, Needed(NameLen(b, o) as int), name, child,
                 ft))
  {
    hide RecIno, RecLen, NameLen, RecName, RecKind, SplitLast, OneEntry;
  }

  /** A block changed only after record `o` has the same record there. */
  lemma RecordBefore(r: Buf, b: Buf, o: nat)
    requires |r| == |b| && Tiled(b, o) && o + 8 <= |b| && o + RecLen(b, o) as int < |b|
    requires (forall i :: 0 <= i < o + RecLen(b, o) as int ==> r[i] == b[i]) && Tiled(r, o + RecLen(b, o) as int)
    ensures Tiled(r, o) && Entries(r, o) == OneEntry(b, o) + Entries(r, o + RecLen(b, o) as int)
  {
    hide RecIno, RecLen, NameLen, RecName, RecKind;
    RecordSame(r, b, o);
  }

  lemma SplitFields(b: Buf, o: nat, actual: nat, name: Buf, child: u32, ft: u8)
    requires |name| < 0x100 && o + 8 <= |b| && 8 + NameLen(b, o) as int <= actual < RecLen(b, o) as int
    requires o + actual + 8 + |name| <= |b|
    ensures var r := SplitLast(b, o, actual, name, child, ft);
            && RecIno(r, o) == RecIno(b, o) && RecLen(r, o) as int == actual
            && NameLen(r, o) == NameLen(b, o) && RecName(r, o) == RecName(b, o) && RecKind(r, o) == RecKind(b, o)
            && RecIno(r, o + actual) == child && RecLen(r, o + actual) as int == RecLen(b, o) as int - actual
            && NameLen(r, o + actual) as int == |name| && RecName(r, o + actual) == name && RecKind(r, o + actual) == ft
            && forall i :: 0 <= i < o ==> r[i] == b[i]
  {
    hide U32At, U16At, PutU16, PutEntry, RecIno;
    var c := PutU16(b, o + 4, actual);
    var r := PutEntry(c, o + actual, child, RecLen(b, o) - actual, ft, name);
    assert NameLen(c, o) == NameLen(b, o) && RecName(c, o) == RecName(b, o);
    InoSame(c, b, o);
    RecordSame(r, c, o);
  }

  lemma AddLast(b: Buf, o: nat, name: Buf, child: u32, ft: u8)
    requires 1 <= |name| < 0x100 && child != 0 && o + 8 <= |b| < 0x1_0000 && Tiled(b, o)
             && o + RecLen(b, o) as int == |b|
    requires RecLen(b, o) as int - Needed(NameLen(b, o) as int) >= Needed(|name|)
    ensures var r := SplitLast(b, o, Needed(NameLen(b, o) as int), name, child, ft);
            && Tiled(r, o) && Entries(r, o) == Entries(b, o) + [Entry(name, Link(child as int, ft))]
            && forall i :: 0 <= i < o ==> r[i] == b[i]
  {
    hide SplitLast, RecIno, RecLen, NameLen, RecName, RecKind;
    var actual := Needed(NameLen(b, o) as int);
    var r := SplitLast(b, o, actual, name, child, ft);
    SplitFields(b, o, actual, name, child, ft);
    assert Tiled(r, |b|) && Entries(r, |b|) == [];
    assert Tiled(r, o + actual);
    assert Entries(r, o + actual) == OneEntry(r, o + actual) + Entries(r, |b|);
    assert Entries(b, |b|) == [];
    assert Entries(b, o) == OneEntry(b, o);
    assert Entries(r, o) == OneEntry(r, o) + Entries(r, o + actual);
  }

  lemma InoSame(a: Buf, b: Buf, o: nat)
    requires |a| == |b| && o + 8 <= |b| && forall i :: o <= i < o + 4 ==> a[i] == b[i]
    ensures RecIno(a, o) == RecIno(b, o)
  {
  }

  lemma LenSame(a: Buf, b: Buf, o: nat)
    requires |a| == |b| && o + 8 <= |b| && forall i :: o + 4 <= i < o + 8 ==> a[i] == b[i]
    ensures RecLen(a, o) == RecLen(b, o) && NameLen(a, o) == NameLen(b, o)
  {
  }

  lemma MergeFields(b: Buf, po: nat, o: nat)
    requires po + 8 <= |b| && po + 8 + NameLen(b, po) as int <= o && o + 8 <= |b|
             && RecLen(b, po) as int + RecLen(b, o) as int < 0x1_0000
    ensures var r := Widen(PutU32(b, o, 0), po, RecLen(b, o));
            && RecIno(r, po) == RecIno(b, po) && RecLen(r, po) as int == RecLen(b, po) as int + RecLen(b, o) as int
            && NameLen(r, po) == NameLen(b, po) && RecName(r, po) == RecName(b, po) && RecKind(r, po) == RecKind(b, po)
            && forall i :: 0 <= i < |b| && (i < po || o + 4 <= i) ==> r[i] == b[i]
  {
    hide U32At, U16At, PutU16, PutU32;
    var z := PutU32(b, o, 0);
    LenSame(z, b, po);
    var r := Widen(z, po, RecLen(b, o));
    InoSame(r, b, po);
    assert NameLen(r, po) == NameLen(b, po) && RecName(r, po) == RecName(b, po);
  }

  /** The record at `po` grows over the record at `o` that follows it, which is zeroed. */
  lemma MergeNext(b: Buf, po: nat, o: nat)
    requires po + 8 <= |b| && o + 8 <= |b| < 0x1_0000 && o == po + RecLen(b, po) as int && Tiled(b, po)
    ensures Tiled(b, o)
    ensures var r := Widen(PutU32(b, o, 0), po, RecLen(b, o));
            && Tiled(r, po) && Entries(r, po) == OneEntry(b, po) + Entries(b, o + RecLen(b, o) as int)
            && forall i :: 0 <= i < po ==> r[i] == b[i]
  {
    hide RecIno, RecLen, NameLen, RecName, RecKind, PutU32, Widen;
    var r := Widen(PutU32(b, o, 0), po, RecLen(b, o));
    MergeFields(b, po, o);
    TiledSame(r, b, o + RecLen(b, o) as int);
    assert Entries(r, po) == OneEntry(r, po) + Entries(r, o + RecLen(b, o) as int);
  }

  /** Zeroing the first record of a block hides its entry and keeps the tiling. */
  lemma ZeroFirst(b: Buf)
    requires Tiled(b, 0) && 0 < |b|
    ensures var z := PutU32(b, 0, 0);
            Tiled(z, 0) && Entries(z, 0) == Entries(b, RecLen(b, 0) as int)
  {
    hide U16At, PutU32;
    var z := PutU32(b, 0, 0);
    LenSame(z, b, 0);
    TiledSame(z, b, RecLen(b, 0) as int);
    assert RecIno(z, 0) == 0;
    assert OneEntry(z, 0) == [];
  }

  /** The walk after a record `po`: exactly the first entry called `name` goes. */
  lemma {:induction false} RemoveAfter(b: Buf, po: nat, o: nat, name: Buf)
    requires Tiled(b, po) && po < |b| < 0x1_0000 && o == po + RecLen(b, po) as int && Tiled(b, o)
    ensures var r := RemoveInBlock(b, o, Some(po), name);
            && (r.None? <==> Find(Entries(b, o), name).None?)
            && (r.Some? ==>
                  && Tiled(r.value, po) && Entries(r.value, po) == OneEntry(b, po) + Without(Entries(b, o), name)
                  && forall i :: 0 <= i < po ==> r.value[i] == b[i])
    decreases |b| - o
  {
    hide RecIno, RecLen, NameLen, RecName, RecKind, PutU16, PutU32, Widen;
    if o < |b| {
      var next := o + RecLen(b, o) as int;
      FindConcat(OneEntry(b, o), Entries(b, next), name);
      WithoutConcat(OneEntry(b, o), Entries(b, next), name);
      if RecIno(b, o) != 0 && RecName(b, o) == name {
        MergeNext(b, po, o);
      } else {
        RemoveAfter(b, o, next, name);
        var r := RemoveInBlock(b, next, Some(o), name);
        if r.Some? {
          RecordSame(r.value, b, po);
        }
      }
    }
  }

  lemma WithoutConcat(x: seq<Entry>, es: seq<Entry>, name: Buf)
    requires |x| <= 1
    ensures Without(x + es, name) == if |x| == 1 && x[0].name == name then es else x + Without(es, name)
  {
    if |x| == 1 {
      assert (x + es)[1..] == es;
    } else {
      assert x + es == es;
    }
  }

  lemma RemoveInBlockSpec(b: Buf, name: Buf)
    requires Tiled(b, 0) && |b| < 0x1_0000
    ensures var r := RemoveInBlock(b, 0, None, name);
            && (r.None? <==> Find(Entries(b, 0), name).None?)
            && (r.Some? ==> Tiled(r.value, 0) && Entries(r.value, 0) == Without(Entries(b, 0), name))
  {
    hide RecIno, RecLen, NameLen, RecName, RecKind, PutU16, PutU32, Widen;
    if 0 < |b| {
      var next := RecLen(b, 0) as int;
      FindConcat(OneEntry(b, 0), Entries(b, next), name);
      WithoutConcat(OneEntry(b, 0), Entries(b, next), name);
      if RecIno(b, 0) != 0 && RecName(b, 0) == name {
        ZeroFirst(b);
      } else {
        RemoveAfter(b, 0, next, name);
      }
    }
  }

  /** A fresh block with one record over all of it (add_entry:217-219). */
  lemma FreshBlockEntries(bsz: nat, name: Buf, child: u32, ft: u8)
    requires 1 <= |name| < 0x100 && 2048 <= bsz < 0x1_0000 && bsz % 4 == 0 && child != 0
    ensures var r := PutEntry(Zeros(bsz), 0, child, bsz, ft, name);
            |r| == bsz && Tiled(r, 0) && Entries(r, 0) == [Entry(name, Link(child as int, ft))]
  {
    hide PutEntry, Zeros, RecIno, RecLen, NameLen, RecName, RecKind;
    var r := PutEntry(Zeros(bsz), 0, child, bsz, ft, name);
    assert Tiled(r, bsz);
    assert Entries(r, bsz) == [];
  }

  // ---------------------------------------------------------------- entry lists as name maps

  /** No two entries have the same name. */
  ghost predicate Distinct(es: seq<Entry>) {
    es == [] || (Find(es[1..], es[0].name).None? && Distinct(es[1..]))
  }

  /** The entries spell the map `names`. */
  ghost predicate Represents(es: seq<Entry>, names: map<Buf, Link>) {
    && Distinct(es)
    && forall nm: Buf :: Find(es, nm) == if nm in names then Some(names[nm]) else None
  }

  lemma {:induction false} FindAppend(p: seq<Entry>, q: seq<Entry>, nm: Buf)
    ensures Find(p + q, nm) == if Find(p, nm).Some? then Find(p, nm) else Find(q, nm)
  {
    if p == [] {
      assert p + q == q;
    } else {
      assert (p + q)[1..] == p[1..] + q;
      FindAppend(p[1..], q, nm);
    }
  }

  lemma Front(es: seq<Entry>, nm: Buf)
    ensures es == [] ==> Find(es, nm).None? && Without(es, nm) == []
    ensures es != [] ==> Find(es, nm) == if es[0].name == nm then Some(es[0].link) else Find(es[1..], nm)
    ensures es != [] ==> Without(es, nm) == if es[0].name == nm then es[1..] else [es[0]] + Without(es[1..], nm)
  {
  }

  lemma {:induction false} WithoutAppend(p: seq<Entry>, q: seq<Entry>, nm: Buf)
    ensures Without(p + q, nm) == if Find(p, nm).Some? then Without(p, nm) + q else p + Without(q, nm)
  {
    hide Find, Without;
    Front(p, nm);
    Front(p + q, nm);
    if p == [] {
      assert p + q == q && p + Without(q, nm) == Without(q, nm);
    } else {
      assert (p + q)[1..] == p[1..] + q;
      WithoutAppend(p[1..], q, nm);
      if p[0].name != nm {
        if Find(p[1..], nm).Some? {
          assert [p[0]] + (Without(p[1..], nm) + q) == [p[0]] + Without(p[1..], nm) + q;
        } else {
          assert [p[0]] + (p[1..] + Without(q, nm)) == p + Without(q, nm);
        }
      }
    }
  }

  lemma {:induction false} DistinctInsert(p: seq<Entry>, q: seq<Entry>, e: Entry)
    requires Distinct(p + q) && Find(p + q, e.name).None?
    ensures Distinct(p + [e] + q)
    ensures forall nm: Buf :: Find(p + [e] + q, nm) == if nm == e.name then Some(e.link) else Find(p + q, nm)
  {
    forall nm: Buf ensures Find(p + [e] + q, nm) == if nm == e.name then Some(e.link) else Find(p + q, nm) {
      FindInsert(p, q, e, nm);
    }
    if p == [] {
      assert p + [e] + q == [e] + q && p + q == q;
    } else {
      assert (p + q)[1..] == p[1..] + q;
      assert (p + [e] + q)[1..] == p[1..] + [e] + q;
      FindInsert(p[1..], q, e, p[0].name);
      DistinctInsert(p[1..], q, e);
    }
  }

  lemma FindInsert(p: seq<Entry>, q: seq<Entry>, e: Entry, nm: Buf)
    requires Find(p + q, e.name).None?
    ensures Find(p + [e] + q, nm) == if nm == e.name then Some(e.link) else Find(p + q, nm)
  {
    FindAppend(p, q, nm);
    FindAppend(p, q, e.name);
    assert p + [e] + q == p + ([e] + q);
    FindAppend(p, [e] + q, nm);
    assert ([e] + q)[1..] == q;
  }

  lemma {:induction false} WithoutSpec(es: seq<Entry>, nm: Buf)
    requires Distinct(es)
    ensures Distinct(Without(es, nm))
    ensures forall x: Buf :: Find(Without(es, nm), x) == if x == nm then None else Find(es, x)
  {
    if es != [] {
      WithoutSpec(es[1..], nm);
      if es[0].name != nm {
        assert ([es[0]] + Without(es[1..], nm))[1..] == Without(es[1..], nm);
      }
    }
  }

  lemma RepresentsInsert(p: seq<Entry>, q: seq<Entry>, e: Entry, names: map<Buf, Link>)
    requires Represents(p + q, names) && e.name !in names
    ensures Represents(p + [e] + q, names[e.name := e.link])
  {
    DistinctInsert(p, q, e);
  }

  lemma RepresentsWithout(es: seq<Entry>, nm: Buf, names: map<Buf, Link>)
    requires Represents(es, names)
    ensures Represents(Without(es, nm), names - {nm})
  {
    WithoutSpec(es, nm);
  }
}
