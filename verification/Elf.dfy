/** Loading an ELF64 executable (loader/src/lib.rs:50-111, loader/src/elf.rs, kernel/src/process.rs:57-110):
    the PT_LOAD segments of the file and the pages they are mapped to. */
module Elf {
  import opened Arith
  import opened Bytes
  import opened Bitmap

  const HeaderSize: nat := 64
  const PhSize: nat := 56
  const PtLoad: u32 := 1
  const MachineX86: u16 := 0x3E

  predicate ValidHeader(d: Buf)
    requires |d| >= HeaderSize
  {
    d[0..4] == [0x7F, 0x45, 0x4C, 0x46] && d[4] == 2 && U16At(d, 18) == MachineX86
  }

  datatype Ph = Ph(kind: u32, flags: u32, offset: nat, vaddr: nat, filesz: nat, memsz: nat)

  function PhAt(d: Buf, o: nat): Ph
    requires o + PhSize <= |d|
  {
    Ph(U32At(d, o), U32At(d, o + 4), U64At(d, o + 8), U64At(d, o + 16), U64At(d, o + 32), U64At(d, o + 40))
  }

  datatype Segment = Segment(vaddr: nat, size: nat, readable: bool, writable: bool, executable: bool, data: Buf)

  datatype Image = Image(entry: nat, segments: seq<Segment>)

  datatype LoadError = TooSmall | BadHeader | TableTruncated | SegmentTruncated

  /** What a call comes to. `Panicked` is a panic of the kernel, `Undefined` a read outside the file. */
  datatype Result = Ok(image: Image) | Err(error: LoadError) | Panicked | Undefined

  const Word: nat := 0x1_0000_0000_0000_0000

  /** 64-bit arithmetic as the release build does it. */
  function Wrap(x: nat): (r: nat)
    ensures r < Word && (x < Word ==> r == x)
  {
    x % Word
  }

  predicate Canonical(a: nat) { a < 0x8000_0000_0000 || a >= Word - 0x8000_0000_0000 }

  // e_phoff, e_phnum and e_phentsize.

  function PhOffset(d: Buf): nat
    requires |d| >= HeaderSize
  {
    U64At(d, 32)
  }

  function PhCount(d: Buf): nat
    requires |d| >= HeaderSize
  {
    U16At(d, 56) as int
  }

  function PhEntry(d: Buf): nat
    requires |d| >= HeaderSize
  {
    U16At(d, 54) as int
  }

  predicate TableChecked(d: Buf)
    requires |d| >= HeaderSize
  {
    Wrap(PhOffset(d) + Mul(PhCount(d), PhEntry(d))) <= |d|
  }

  /** Where program header `i` is read. */
  function Position(d: Buf, i: nat): nat
    requires |d| >= HeaderSize
  {
    Wrap(PhOffset(d) + Mul(i, PhEntry(d)))
  }

  predicate Inside(d: Buf, i: nat)
    requires |d| >= HeaderSize
  {
    Position(d, i) + PhSize <= |d|
  }

  /** Program header `i`. */
  function Header(d: Buf, i: nat): Ph
    requires |d| >= HeaderSize && Inside(d, i)
  {
    PhAt(d, Position(d, i))
  }

  predicate IsLoad(h: Ph) { h.kind == PtLoad }

  predicate InFile(d: Buf, h: Ph) { h.offset + h.filesz <= |d| }

  predicate Truncated(d: Buf, h: Ph) { Wrap(h.offset + h.filesz) > |d| }

  /** A slice that ends before it starts, a vector too large for any allocator, or no virtual address. */
  predicate Panics(h: Ph) { h.offset + h.filesz >= Word || h.memsz >= Word / 2 || !Canonical(h.vaddr) }

  /** How program header `i` ends the call, if it does. */
  function Fate(d: Buf, i: nat): (r: Option<Result>)
    requires |d| >= HeaderSize
    ensures r.None? ==> Inside(d, i) && (IsLoad(Header(d, i)) ==> InFile(d, Header(d, i)))
  {
    if !Inside(d, i) then Some(Undefined)
    else if !IsLoad(Header(d, i)) then None
    else if Truncated(d, Header(d, i)) then Some(Err(SegmentTruncated))
    else if Panics(Header(d, i)) then Some(Panicked)
    else None
  }

  /** The memory image of a header: file bytes, then zeros; less than the file bytes when the memory size says so. */
  function SegmentOf(d: Buf, h: Ph): (r: Segment)
    requires InFile(d, h)
    ensures r.vaddr == h.vaddr && r.size == h.memsz == |r.data|
    ensures r.readable == BitOf(h.flags as int, 2) && r.writable == BitOf(h.flags as int, 1)
            && r.executable == BitOf(h.flags as int, 0)
    ensures forall i :: 0 <= i < h.memsz ==> r.data[i] == if i < h.filesz then d[h.offset + i] else 0
  {
    FlagBits(h.flags as int);
    Segment(h.vaddr, h.memsz, h.flags / 4 % 2 == 1, h.flags / 2 % 2 == 1, h.flags % 2 == 1,
            if h.memsz <= h.filesz then d[h.offset..h.offset + h.memsz]
            else d[h.offset..h.offset + h.filesz] + Zeros(h.memsz - h.filesz))
  }

  lemma FlagBits(x: nat)
    ensures BitOf(x, 0) == (x % 2 == 1) && BitOf(x, 1) == (x / 2 % 2 == 1) && BitOf(x, 2) == (x / 4 % 2 == 1)
  {
    assert x / 2 / 2 == x / 4;
    assert BitOf(x, 1) == BitOf(x / 2, 0) && BitOf(x, 2) == BitOf(x / 2, 1) && BitOf(x / 2, 1) == BitOf(x / 2 / 2, 0);
  }

  /** Header `i` is loadable and does not end the call. */
  predicate Loads(d: Buf, i: nat)
    requires |d| >= HeaderSize
  {
    Fate(d, i).None? && IsLoad(Header(d, i))
  }

  /** None of the first `n` headers ends the call. */
  ghost predicate Passes(d: Buf, n: nat)
    requires |d| >= HeaderSize
  {
    forall i :: 0 <= i < n ==> Fate(d, i).None?
  }

  /** The segments of the first `n` headers, in order. */
  ghost function SegmentsOf(d: Buf, n: nat): seq<Segment>
    requires |d| >= HeaderSize && Passes(d, n)
  {
    if n == 0 then []
    else
      assert Fate(d, n - 1).None?;
      SegmentsOf(d, n - 1) + if IsLoad(Header(d, n - 1)) then [SegmentOf(d, Header(d, n - 1))] else []
  }

  /** load_elf, of any bytes. */
  method LoadElf(d: Buf) returns (r: Result)
    ensures |d| < HeaderSize ==> r == Err(TooSmall)
    ensures |d| >= HeaderSize && !ValidHeader(d) ==> r == Err(BadHeader)
    ensures |d| >= HeaderSize && ValidHeader(d) && !TableChecked(d) ==> r == Err(TableTruncated)
    ensures |d| >= HeaderSize && ValidHeader(d) && TableChecked(d) ==>
              forall i :: 0 <= i < PhCount(d) && Passes(d, i) && Fate(d, i).Some? ==> r == Fate(d, i).value
    ensures |d| >= HeaderSize && ValidHeader(d) && TableChecked(d) && Passes(d, PhCount(d)) ==>
              r == if Canonical(U64At(d, 24)) then Ok(Image(U64At(d, 24), SegmentsOf(d, PhCount(d)))) else Panicked
    ensures r.Ok? ==>
              && |d| >= HeaderSize && ValidHeader(d) && TableChecked(d) && Passes(d, PhCount(d))
              && r.image == Image(U64At(d, 24), SegmentsOf(d, PhCount(d)))
  {
    hide U16At, U32At, U64At, Fate, TableChecked, SegmentOf;
    if |d| < HeaderSize { return Err(TooSmall); }
    if !ValidHeader(d) { return Err(BadHeader); }
    if !TableChecked(d) { return Err(TableTruncated); }
    var segments: seq<Segment> := [];
    var i := 0;
    while i < PhCount(d)
      invariant 0 <= i <= PhCount(d) && Passes(d, i) && segments == SegmentsOf(d, i)
    {
      FateCases(d, i);
      if !Inside(d, i) { return Undefined; }
      var h := Header(d, i);
      if IsLoad(h) {
        if Truncated(d, h) { return Err(SegmentTruncated); }
        if Panics(h) { return Panicked; }
        segments := segments + [SegmentOf(d, h)];
      }
      i := i + 1;
    }
    if !Canonical(U64At(d, 24)) { return Panicked; }
    r := Ok(Image(U64At(d, 24), segments));
  }

  lemma FateCases(d: Buf, i: nat)
    requires |d| >= HeaderSize
    ensures Fate(d, i) == if !Inside(d, i) then Some(Undefined)
                          else if !IsLoad(Header(d, i)) then None
                          else if Truncated(d, Header(d, i)) then Some(Err(SegmentTruncated))
                          else if Panics(Header(d, i)) then Some(Panicked)
                          else None
  {
  }

  /** The headers of any table are read inside the file exactly when the last one is, taken without wrap-around.
      Where the entries have the size of a header, the loader's check amounts to that exactly when the end of the
      table does not wrap. A slice is shorter than half the address space. */
  lemma ReadInside(d: Buf)
    requires HeaderSize <= |d| < Word / 2
    ensures (forall i :: 0 <= i < PhCount(d) ==> Inside(d, i)) <==>
            PhCount(d) == 0 || PhOffset(d) + Mul(PhCount(d) - 1, PhEntry(d)) + PhSize <= |d|
    ensures TableChecked(d) && PhEntry(d) >= PhSize ==>
              ((forall i :: 0 <= i < PhCount(d) ==> Inside(d, i)) <==>
                 PhOffset(d) + Mul(PhCount(d), PhEntry(d)) < Word)
  {
    hide U16At, U64At, Mul, PhOffset, PhCount, PhEntry, Wrap;
    TableBounds(d);
    var n, size := PhCount(d), PhEntry(d);
    MulOne(size);
    SmallMul(n, size);
    if n > 0 {
      MulAdd(n - 1, 1, size);
      if forall i :: 0 <= i < n ==> Inside(d, i) { assert Inside(d, 0) && Inside(d, n - 1); }
      if PhOffset(d) + Mul(n - 1, size) + PhSize <= |d| {
        forall i | 0 <= i < n ensures Inside(d, i) { MulMono(i, n - 1, size); }
      }
    }
  }

  lemma TableBounds(d: Buf)
    requires |d| >= HeaderSize
    ensures PhOffset(d) < Word && PhCount(d) < 0x1_0000 && PhEntry(d) < 0x1_0000
  {
  }

  lemma {:induction false} SmallMul(a: nat, n: nat)
    requires n < 0x1_0000
    ensures Mul(a, n) <= 0xFFFF * a
  {
    if a > 0 { SmallMul(a - 1, n); }
  }

  /** One entry of the size of a header that ends where the address space does: the sum wraps to 0, the check
      passes, and the header is read before the file. */
  lemma ReadBeforeStart(d: Buf)
    requires HeaderSize <= |d| < Word / 2 && PhEntry(d) == PhSize && PhCount(d) == 1 && PhOffset(d) == Word - PhSize
    ensures TableChecked(d) && Passes(d, 0) && Fate(d, 0) == Some(Undefined)
  {
    hide U16At, U64At, Mul, PhOffset, PhCount, PhEntry;
    MulOne(PhSize);
  }

  /** Entries of length zero at the end of a file pass the check, and the first header is read behind the end. */
  lemma ReadPastEnd(d: Buf)
    requires |d| >= HeaderSize && PhEntry(d) == 0 && PhCount(d) > 0 && PhOffset(d) == |d| < Word
    ensures TableChecked(d) && Passes(d, 0) && Fate(d, 0) == Some(Undefined)
  {
    hide U16At, U64At, Mul, PhOffset, PhCount, PhEntry;
    MulZero(PhCount(d));
    MulZero(0);
  }

  // ---------------------------------------------------------------- the format

  function U64Bytes(v: nat): (r: Buf)
    requires v < Word
    ensures |r| == 8 && U64At(r, 0) == v
  {
    var r := U32Bytes(v % 0x1_0000_0000) + U32Bytes(v / 0x1_0000_0000);
    ShiftedWord(r, 0, U32Bytes(v % 0x1_0000_0000));
    ShiftedWord(r, 4, U32Bytes(v / 0x1_0000_0000));
    r
  }

  lemma ShiftedWord(b: Buf, o: nat, w: Buf)
    requires |w| == 4 && o + 4 <= |b| && b[o..o + 4] == w
    ensures U32At(b, o) == U32At(w, 0)
  {
    var c := b[o..o + 4];
    assert c[0] == b[o] && c[1] == b[o + 1] && c[2] == b[o + 2] && c[3] == b[o + 3];
  }

  lemma ShiftedLong(b: Buf, o: nat, w: Buf)
    requires |w| == 8 && o + 8 <= |b| && b[o..o + 8] == w
    ensures U64At(b, o) == U64At(w, 0)
  {
    hide U32At;
    assert b[o..o + 4] == w[..4] && b[o + 4..o + 8] == w[4..];
    ShiftedWord(b, o, w[..4]);
    ShiftedWord(w, 0, w[..4]);
    ShiftedWord(b, o + 4, w[4..]);
    ShiftedWord(w, 4, w[4..]);
  }

  lemma ShiftedHalf(b: Buf, o: nat, w: Buf)
    requires |w| == 2 && o + 2 <= |b| && b[o..o + 2] == w
    ensures U16At(b, o) == U16At(w, 0)
  {
    var c := b[o..o + 2];
    assert c[0] == b[o] && c[1] == b[o + 1];
  }

  predicate IsPh(h: Ph) { h.offset < Word && h.vaddr < Word && h.filesz < Word && h.memsz < Word }

  /** A program header as the format lays it out; physical address and alignment are not looked at. */
  function EncodePh(h: Ph, paddr: nat, align: nat): (r: Buf)
    requires IsPh(h) && paddr < Word && align < Word
    ensures |r| == PhSize
  {
    U32Bytes(h.kind) + U32Bytes(h.flags) + U64Bytes(h.offset) + U64Bytes(h.vaddr) + U64Bytes(paddr)
    + U64Bytes(h.filesz) + U64Bytes(h.memsz) + U64Bytes(align)
  }

  /** Reading a header gives back what the format wrote. */
  lemma PhBack(d: Buf, o: nat, h: Ph, paddr: nat, align: nat)
    requires IsPh(h) && paddr < Word && align < Word && o + PhSize <= |d|
             && d[o..o + PhSize] == EncodePh(h, paddr, align)
    ensures PhAt(d, o) == h
  {
    hide U32At, U64At, U32Bytes, U64Bytes;
    PartsOfPh(d, o, h, paddr, align);
    ShiftedWord(d, o, U32Bytes(h.kind));
    ShiftedWord(d, o + 4, U32Bytes(h.flags));
    ShiftedLong(d, o + 8, U64Bytes(h.offset));
    ShiftedLong(d, o + 16, U64Bytes(h.vaddr));
    ShiftedLong(d, o + 32, U64Bytes(h.filesz));
    ShiftedLong(d, o + 40, U64Bytes(h.memsz));
  }

  lemma PartsOfPh(d: Buf, o: nat, h: Ph, paddr: nat, align: nat)
    requires IsPh(h) && paddr < Word && align < Word && o + PhSize <= |d|
             && d[o..o + PhSize] == EncodePh(h, paddr, align)
    ensures d[o..o + 4] == U32Bytes(h.kind) && d[o + 4..o + 8] == U32Bytes(h.flags)
    ensures d[o + 8..o + 16] == U64Bytes(h.offset) && d[o + 16..o + 24] == U64Bytes(h.vaddr)
    ensures d[o + 32..o + 40] == U64Bytes(h.filesz) && d[o + 40..o + 48] == U64Bytes(h.memsz)
  {
    hide U32At, U64At, U32Bytes, U64Bytes;
    var e := EncodePh(h, paddr, align);
    assert e[..4] == U32Bytes(h.kind) && e[4..8] == U32Bytes(h.flags) && e[8..16] == U64Bytes(h.offset);
    assert e[16..24] == U64Bytes(h.vaddr) && e[32..40] == U64Bytes(h.filesz) && e[40..48] == U64Bytes(h.memsz);
    forall a, b | 0 <= a <= b <= PhSize ensures d[o + a..o + b] == e[a..b] { Sub(d, o, PhSize, a, b); }
  }

  lemma Sub(d: Buf, o: nat, n: nat, a: nat, b: nat)
    requires a <= b <= n && o + n <= |d|
    ensures d[o + a..o + b] == d[o..o + n][a..b]
  {
    var x, y := d[o + a..o + b], d[o..o + n][a..b];
    assert |x| == |y|;
    forall k | 0 <= k < |x| ensures x[k] == y[k] { assert x[k] == d[o + a + k] && y[k] == d[o..o + n][a + k]; }
  }

  /** The file header: identification, type, machine, version, entry point, table and section offsets, flags,
      and the six sizes and counts. */
  datatype Eh = Eh(ident: Buf, kind: u16, machine: u16, version: u32, entry: nat, phoff: nat, shoff: nat, flags: u32,
                   ehsize: u16, phentsize: u16, phnum: u16, shentsize: u16, shnum: u16, shstrndx: u16)

  predicate IsEh(e: Eh) { |e.ident| == 16 && e.entry < Word && e.phoff < Word && e.shoff < Word }

  function EncodeEh(e: Eh): (r: Buf)
    requires IsEh(e)
    ensures |r| == HeaderSize
  {
    e.ident + U16Bytes(e.kind) + U16Bytes(e.machine) + U32Bytes(e.version) + U64Bytes(e.entry) + U64Bytes(e.phoff)
    + U64Bytes(e.shoff) + Sizes(e)
  }

  /** The last sixteen bytes of the file header. */
  function Sizes(e: Eh): (r: Buf)
    ensures |r| == 16
  {
    U32Bytes(e.flags) + U16Bytes(e.ehsize) + U16Bytes(e.phentsize) + U16Bytes(e.phnum) + U16Bytes(e.shentsize)
    + U16Bytes(e.shnum) + U16Bytes(e.shstrndx)
  }

  lemma HeaderBack(d: Buf, e: Eh)
    requires IsEh(e) && |d| >= HeaderSize && d[..HeaderSize] == EncodeEh(e)
    ensures U64At(d, 24) == e.entry && PhOffset(d) == e.phoff && PhEntry(d) == e.phentsize as int
            && PhCount(d) == e.phnum as int
    ensures ValidHeader(d) <==> e.ident[..5] == [0x7F, 0x45, 0x4C, 0x46, 2] && e.machine == 0x3E
  {
    hide U16At, U32At, U64At, U16Bytes, U32Bytes, U64Bytes;
    PartsOfEh(d, e);
    ShiftedHalf(d, 18, U16Bytes(e.machine));
    ShiftedLong(d, 24, U64Bytes(e.entry));
    ShiftedLong(d, 32, U64Bytes(e.phoff));
    ShiftedHalf(d, 54, U16Bytes(e.phentsize));
    ShiftedHalf(d, 56, U16Bytes(e.phnum));
    assert e.ident[..5] == d[..4] + [d[4]];
  }

  lemma PartsOfEh(d: Buf, e: Eh)
    requires IsEh(e) && |d| >= HeaderSize && d[..HeaderSize] == EncodeEh(e)
    ensures d[..16] == e.ident && d[18..20] == U16Bytes(e.machine) && d[24..32] == U64Bytes(e.entry)
    ensures d[32..40] == U64Bytes(e.phoff) && d[54..56] == U16Bytes(e.phentsize) && d[56..58] == U16Bytes(e.phnum)
  {
    hide U16At, U32At, U64At, U16Bytes, U32Bytes, U64Bytes;
    var b := EncodeEh(e);
    assert b[..16] == e.ident && b[18..20] == U16Bytes(e.machine) && b[24..32] == U64Bytes(e.entry);
    var s := Sizes(e);
    assert s[6..8] == U16Bytes(e.phentsize) && s[8..10] == U16Bytes(e.phnum);
    assert b[32..40] == U64Bytes(e.phoff) && b[48..64] == s;
    Sub(b, 48, 16, 6, 8);
    Sub(b, 48, 16, 8, 10);
    forall x, y | 0 <= x <= y <= HeaderSize ensures d[x..y] == b[x..y] { Sub(d, 0, HeaderSize, x, y); }
  }

  /** A file whose table lies at e_phoff in entries of e_phentsize bytes is read header by header. */
  lemma TableBack(d: Buf, e: Eh, i: nat, h: Ph, paddr: nat, align: nat)
    requires IsEh(e) && |d| >= HeaderSize && d[..HeaderSize] == EncodeEh(e) && i < e.phnum as int
    requires IsPh(h) && paddr < Word && align < Word
    requires var o := e.phoff + Mul(i, e.phentsize as int);
             o < Word && o + PhSize <= |d| && d[o..o + PhSize] == EncodePh(h, paddr, align)
    ensures Inside(d, i) && Header(d, i) == h
  {
    hide U16At, U32At, U64At, U32Bytes, U64Bytes, EncodePh, EncodeEh, PhAt, PhOffset, PhEntry, PhCount;
    HeaderBack(d, e);
    PhBack(d, e.phoff + Mul(i, e.phentsize as int), h, paddr, align);
  }

  // ---------------------------------------------------------------- mapping

  const PageSize: nat := 4096

  type Page = b: Buf | |b| == 4096 witness Zeros(4096)

  /** Mapped pages by number. */
  type Space = map<nat, Page>

  function ByteAt(m: Space, a: nat): u8
    requires a / PageSize in m
  {
    m[a / PageSize][a % PageSize]
  }

  /** The part of a segment that falls in page `p`. */
  function PatchPage(page: Page, p: nat, s: Segment): (r: Page)
    ensures forall o :: 0 <= o < PageSize ==>
              r[o] == if s.vaddr <= PageSize * p + o < s.vaddr + |s.data|
                  then s.data[PageSize * p + o - s.vaddr] else page[o]
  {
    var r: Buf := seq(4096, o requires 0 <= o < 4096 =>
      if s.vaddr <= PageSize * p + o < s.vaddr + |s.data| then s.data[PageSize * p + o - s.vaddr] else page[o]);
    r
  }

  /** Pages of a segment. */
  function FirstPage(s: Segment): nat { s.vaddr / PageSize }

  /** One past the page of the last byte. */
  function EndPage(s: Segment): nat { (s.vaddr + s.size + PageSize - 1) / PageSize }

  /** What map_segment asks of a page. */
  datatype Perm = Perm(writable: bool, executable: bool)

  function PermOf(s: Segment): Perm { Perm(s.writable, s.executable) }

  /** Pages up to `k` done: a page that was mapped keeps its permissions, a fresh one gets those of the segment. */
  ghost predicate Permitted(m: map<nat, Perm>, s: Segment, k: nat, r: map<nat, Perm>) {
    && (forall p :: p in r <==> p in m || FirstPage(s) <= p < k)
    && (forall p :: p in r ==> r[p] == if p in m then m[p] else PermOf(s))
  }

  /** After the pages up to `k` were done: mapped where the segment reaches, patched, fresh pages zeroed first. */
  ghost predicate Mapped(m: Space, s: Segment, k: nat, r: Space) {
    && (forall p :: p in r <==> p in m || FirstPage(s) <= p < k)
    && (forall p :: p in r ==>
          r[p] == if FirstPage(s) <= p < k then PatchPage(if p in m then m[p] else Zeros(4096), p, s) else m[p])
  }

  /** The bytes of the segment that fall in page `p`, copied into it. */
  method CopyInto(page: Page, p: nat, s: Segment) returns (r: Page)
    ensures r == PatchPage(page, p, s)
  {
    hide PatchPage, Splice;
    var addr := PageSize * p;
    var from := if addr < s.vaddr then 0 else addr - s.vaddr;
    var limit := if addr + PageSize > s.vaddr then addr + PageSize - s.vaddr else 0;
    var to := if |s.data| < limit then |s.data| else limit;
    CopyIsPatch(page, p, s, from, to);
    r := page;
    if from < to { r := Splice(page, if addr < s.vaddr then s.vaddr - addr else 0, s.data[from..to]); }
  }

  class AddressSpace {
    var pages: Space
    var perms: map<nat, Perm>

    ghost predicate Valid()
      reads this
    {
      perms.Keys == pages.Keys
    }

    constructor ()
      ensures Valid() && pages == map[] && perms == map[]
    {
      pages, perms := map[], map[];
    }

    /** map_segment: a page already mapped by an earlier segment keeps its other bytes and its permissions.
        False is the panic on the segment's addresses. */
    method MapSegment(s: Segment) returns (ok: bool)
      requires Valid()
      modifies this
      ensures Valid() && (ok <==> Mappable(s))
      ensures ok ==> Mapped(old(pages), s, EndPage(s), pages) && Permitted(old(perms), s, EndPage(s), perms)
      ensures !ok ==> pages == old(pages) && perms == old(perms)
    {
      hide PatchPage, EndPage, FirstPage, Mapped, Permitted, Zeros;
      if !Mappable(s) { return false; }
      var p := FirstPage(s);
      var end := EndPage(s);
      Begin(pages, perms, s);
      while p < end
        invariant FirstPage(s) <= p && (p <= end || (p == FirstPage(s) && pages == old(pages) && perms == old(perms)))
        invariant Valid() && Mapped(old(pages), s, p, pages) && Permitted(old(perms), s, p, perms)
      {
        var page: Page := if p in pages then pages[p] else Zeros(4096);
        page := CopyInto(page, p, s);
        MappedStep(old(pages), s, p, pages, page);
        PermittedStep(old(perms), s, p, perms);
        if p !in pages { perms := perms[p := PermOf(s)]; }
        pages := pages[p := page];
        p := p + 1;
      }
      ok := true;
    }

    /** All segments in order, as spawn does. */
    method MapAll(segments: seq<Segment>) returns (ok: bool)
      requires Valid() && forall i :: 0 <= i < |segments| ==> Fits(segments[i])
      modifies this
      ensures Valid() && (ok <==> forall i :: 0 <= i < |segments| ==> Mappable(segments[i]))
      ensures ok ==> Loaded(old(pages), segments, |segments|, pages)
      ensures ok ==> FirstPerms(old(perms), segments, |segments|, perms)
    {
      hide Mapped, Loaded, Permitted, FirstPerms, Mappable;
      LoadedNone(pages, segments);
      PermsNone(perms, segments);
      var i := 0;
      while i < |segments|
        invariant 0 <= i <= |segments| && Valid() && Loaded(old(pages), segments, i, pages)
        invariant FirstPerms(old(perms), segments, i, perms) && forall j :: 0 <= j < i ==> Mappable(segments[j])
      {
        ghost var was, had := pages, perms;
        ok := MapSegment(segments[i]);
        if !ok { return; }
        LoadedMore(old(pages), segments, i, was, pages);
        PermsMore(old(perms), segments, i, had, perms);
        i := i + 1;
      }
      ok := true;
    }
  }

  lemma Begin(m: Space, perms: map<nat, Perm>, s: Segment)
    ensures Mapped(m, s, FirstPage(s), m) && Permitted(perms, s, FirstPage(s), perms)
    ensures EndPage(s) < FirstPage(s) ==> Mapped(m, s, EndPage(s), m) && Permitted(perms, s, EndPage(s), perms)
  {
    hide FirstPage, EndPage;
  }

  lemma MappedStep(m: Space, s: Segment, k: nat, r: Space, page: Page)
    requires FirstPage(s) <= k && Mapped(m, s, k, r) && page == PatchPage(if k in r then r[k] else Zeros(4096), k, s)
    ensures Mapped(m, s, k + 1, r[k := page])
  {
    hide FirstPage, PatchPage, Zeros;
  }

  lemma PermittedStep(m: map<nat, Perm>, s: Segment, k: nat, r: map<nat, Perm>)
    requires FirstPage(s) <= k && Permitted(m, s, k, r)
    ensures Permitted(m, s, k + 1, if k in r then r else r[k := PermOf(s)])
  {
    hide FirstPage;
  }

  lemma CopyIsPatch(page: Page, p: nat, s: Segment, from: nat, to: nat)
    requires from == if PageSize * p < s.vaddr then 0 else PageSize * p - s.vaddr
    requires var limit := if PageSize * p + PageSize > s.vaddr then PageSize * p + PageSize - s.vaddr else 0;
             to == if |s.data| < limit then |s.data| else limit
    ensures from >= to ==> PatchPage(page, p, s) == page
    ensures from < to ==> var at := if PageSize * p < s.vaddr then s.vaddr - PageSize * p else 0;
                          at + (to - from) <= PageSize && PatchPage(page, p, s) == Splice(page, at, s.data[from..to])
  {
  }

  /** The byte at `a` after the first `n` segments over `m`: that of the last segment holding it, else
      what was there, else zero. */
  function Expected(m: Space, segs: seq<Segment>, n: nat, a: nat): u8
    requires n <= |segs|
  {
    if n == 0 then (if a / PageSize in m then ByteAt(m, a) else 0)
    else if segs[n - 1].vaddr <= a < segs[n - 1].vaddr + |segs[n - 1].data| then segs[n - 1].data[a - segs[n - 1].vaddr]
    else Expected(m, segs, n - 1, a)
  }

  /** What load_elf produces: as much data as the segment is long. */
  predicate Fits(s: Segment) { s.size == |s.data| }

  /** The end of the segment and its last byte have addresses; map_segment panics on any other segment. */
  predicate Mappable(s: Segment) {
    0 < s.vaddr + s.size < Word && Canonical(s.vaddr + s.size) && Canonical(s.vaddr + s.size - 1)
  }

  predicate Touches(s: Segment, p: nat) { FirstPage(s) <= p < EndPage(s) }

  ghost predicate Loaded(m: Space, segs: seq<Segment>, n: nat, r: Space)
    requires n <= |segs|
  {
    && (forall p :: p in r <==> p in m || exists i :: 0 <= i < n && Touches(segs[i], p))
    && (forall a: nat {:trigger ByteAt(r, a)} :: a / PageSize in r ==> ByteAt(r, a) == Expected(m, segs, n, a))
  }

  lemma LoadedNone(m: Space, segs: seq<Segment>)
    ensures Loaded(m, segs, 0, m)
  {
  }

  lemma LoadedMore(m: Space, segs: seq<Segment>, n: nat, was: Space, now: Space)
    requires n < |segs| && forall i :: 0 <= i < |segs| ==> Fits(segs[i])
    requires Loaded(m, segs, n, was) && Mapped(was, segs[n], EndPage(segs[n]), now)
    ensures Loaded(m, segs, n + 1, now)
  {
    var s := segs[n];
    forall p ensures p in now <==> p in m || exists i :: 0 <= i < n + 1 && Touches(segs[i], p) {
      if Touches(s, p) { assert Touches(segs[n], p); }
    }
    forall a: nat | a / PageSize in now ensures ByteAt(now, a) == Expected(m, segs, n + 1, a) {
      PagedByte(m, segs, n, was, now, a);
    }
  }

  lemma PagedByte(m: Space, segs: seq<Segment>, n: nat, was: Space, now: Space, a: nat)
    requires n < |segs| && (forall i :: 0 <= i < |segs| ==> Fits(segs[i])) && a / PageSize in now
    requires Loaded(m, segs, n, was) && Mapped(was, segs[n], EndPage(segs[n]), now)
    ensures ByteAt(now, a) == Expected(m, segs, n + 1, a)
  {
    hide PatchPage, Touches, FirstPage, EndPage, Mapped, Fits;
    MappedByte(was, segs[n], now, a);
    if a / PageSize in was {
      assert ByteAt(was, a) == Expected(m, segs, n, a);
    } else {
      Untouched(m, segs, n, a);
    }
  }

  /** One segment mapped: its bytes, else what was there, else zero. */
  lemma MappedByte(was: Space, s: Segment, now: Space, a: nat)
    requires Fits(s) && Mapped(was, s, EndPage(s), now) && a / PageSize in now
    ensures ByteAt(now, a) == if s.vaddr <= a < s.vaddr + |s.data|
            then s.data[a - s.vaddr] else if a / PageSize in was then ByteAt(was, a) else 0
  {
    hide PatchPage, FirstPage, EndPage, Zeros;
    var p := a / PageSize;
    assert PageSize * p + a % PageSize == a;
    var page: Page := if p in was then was[p] else Zeros(4096);
    assert now[p] == if Touches(s, p) then PatchPage(page, p, s) else was[p];
    if s.vaddr <= a < s.vaddr + |s.data| { HeldIsTouched(s, a); }
  }

  lemma HeldIsTouched(s: Segment, a: nat)
    requires Fits(s) && s.vaddr <= a < s.vaddr + |s.data|
    ensures Touches(s, a / PageSize)
  {
  }

  /** An address no segment reaches reads as zero on a fresh page. */
  lemma {:induction false} Untouched(m: Space, segs: seq<Segment>, n: nat, a: nat)
    requires n <= |segs| && (forall i :: 0 <= i < |segs| ==> Fits(segs[i])) && a / PageSize !in m
    requires forall i :: 0 <= i < n ==> !Touches(segs[i], a / PageSize)
    ensures Expected(m, segs, n, a) == 0
    decreases n
  {
    hide Touches, Fits;
    if n > 0 {
      if segs[n - 1].vaddr <= a < segs[n - 1].vaddr + |segs[n - 1].data| { HeldIsTouched(segs[n - 1], a); }
      Untouched(m, segs, n - 1, a);
    }
  }

  ghost predicate DisjointSegments(segs: seq<Segment>) {
    forall i, j, a :: 0 <= i < j < |segs| ==> !(Holds(segs[i], a) && Holds(segs[j], a))
  }

  predicate Holds(s: Segment, a: nat) { s.vaddr <= a < s.vaddr + |s.data| }

  lemma {:induction false} ExpectedHeld(m: Space, segs: seq<Segment>, n: nat, k: nat, a: nat)
    requires k < n <= |segs| && DisjointSegments(segs) && Holds(segs[k], a)
    ensures Expected(m, segs, n, a) == segs[k].data[a - segs[k].vaddr]
    decreases n
  {
    if k < n - 1 {
      assert !(Holds(segs[k], a) && Holds(segs[n - 1], a));
      ExpectedHeld(m, segs, n - 1, k, a);
    }
  }

  lemma {:induction false} ExpectedFree(m: Space, segs: seq<Segment>, n: nat, a: nat)
    requires n <= |segs| && forall i :: 0 <= i < n ==> !Holds(segs[i], a)
    ensures Expected(m, segs, n, a) == if a / PageSize in m then ByteAt(m, a) else 0
    decreases n
  {
    if n > 0 { ExpectedFree(m, segs, n - 1, a); }
  }

  lemma {:induction false} SegmentIn(d: Buf, n: nat, i: nat) returns (k: nat)
    requires |d| >= HeaderSize && Passes(d, n) && i < n && Loads(d, i)
    ensures k < |SegmentsOf(d, n)| && SegmentsOf(d, n)[k] == SegmentOf(d, Header(d, i))
    decreases n
  {
    hide Fate, Header, SegmentOf, Inside;
    if i == n - 1 { k := |SegmentsOf(d, n - 1)|; } else { k := SegmentIn(d, n - 1, i); }
  }

  ghost predicate LoadedByte(d: Buf, h: Ph, r: Space, j: nat)
    requires InFile(d, h)
  {
    (h.vaddr + j) / PageSize in r && ByteAt(r, h.vaddr + j) == if j < h.filesz then d[h.offset + j] else 0
  }

  /** The load image: in a fresh address space every loadable header's memory is its file bytes followed by
      zeros, on pages of its own and on pages it shares with other segments, and every other byte of a
      mapped page is zero. */
  lemma LoadImage(d: Buf, r: Space, i: nat, j: nat)
    requires |d| >= HeaderSize && Passes(d, PhCount(d))
    requires var segs := SegmentsOf(d, PhCount(d));
             (forall k :: 0 <= k < |segs| ==> Fits(segs[k])) && DisjointSegments(segs) && Loaded(map[], segs, |segs|, r)
    requires i < PhCount(d) && Loads(d, i) && j < Header(d, i).memsz
    ensures LoadedByte(d, Header(d, i), r, j)
  {
    hide Header, Fate, U16At, U64At, Touches;
    var segs, h := SegmentsOf(d, PhCount(d)), Header(d, i);
    assert Fate(d, i).None?;
    var k := SegmentIn(d, PhCount(d), i);
    var a := h.vaddr + j;
    HeldIsTouched(segs[k], a);
    assert a / PageSize in r;
    ExpectedHeld(map[], segs, |segs|, k, a);
    assert ByteAt(r, a) == Expected(map[], segs, |segs|, a);
  }

  lemma LoadPadding(segs: seq<Segment>, r: Space, a: nat)
    requires (forall k :: 0 <= k < |segs| ==> Fits(segs[k])) && Loaded(map[], segs, |segs|, r)
    requires a / PageSize in r && forall k :: 0 <= k < |segs| ==> !Holds(segs[k], a)
    ensures ByteAt(r, a) == 0
  {
    hide Touches;
    ExpectedFree(map[], segs, |segs|, a);
    assert ByteAt(r, a) == Expected(map[], segs, |segs|, a);
  }

  // ---------------------------------------------------------------- permissions of shared pages

  /** The first of `n` segments that touches the page, or `n`. */
  function FirstTouch(segs: seq<Segment>, n: nat, p: nat): (r: nat)
    requires n <= |segs|
    ensures r <= n && (r < n ==> Touches(segs[r], p)) && forall i :: 0 <= i < r ==> !Touches(segs[i], p)
  {
    if n == 0 then 0
    else
      var f := FirstTouch(segs, n - 1, p);
      if f < n - 1 || Touches(segs[n - 1], p) then f else n
  }

  /** Every page has the permissions it had, or those of the first segment that touches it. */
  ghost predicate FirstPerms(m: map<nat, Perm>, segs: seq<Segment>, n: nat, r: map<nat, Perm>)
    requires n <= |segs|
  {
    && (forall p :: p in r <==> p in m || FirstTouch(segs, n, p) < n)
    && (forall p :: p in r ==> r[p] == if p in m then m[p] else PermOf(segs[FirstTouch(segs, n, p)]))
  }

  lemma PermsNone(m: map<nat, Perm>, segs: seq<Segment>)
    ensures FirstPerms(m, segs, 0, m)
  {
  }

  lemma PermsMore(m: map<nat, Perm>, segs: seq<Segment>, n: nat, was: map<nat, Perm>, now: map<nat, Perm>)
    requires n < |segs| && FirstPerms(m, segs, n, was) && Permitted(was, segs[n], EndPage(segs[n]), now)
    ensures FirstPerms(m, segs, n + 1, now)
  {
    hide FirstPage, EndPage;
  }

  predicate HasByte(s: Segment, p: nat) { s.data != [] && Touches(s, p) }

  /** Every byte of a segment is on a page with the permissions of its segment. */
  ghost predicate OwnPerms(r: map<nat, Perm>, segs: seq<Segment>) {
    forall k, a: nat :: 0 <= k < |segs| && Holds(segs[k], a) ==> a / PageSize in r && r[a / PageSize] == PermOf(segs[k])
  }

  /** Whoever has bytes on a page agrees with the first segment that touches it. */
  ghost predicate Agree(segs: seq<Segment>) {
    forall k, p: nat :: 0 <= k < |segs| && HasByte(segs[k], p) ==>
        PermOf(segs[FirstTouch(segs, |segs|, p)]) == PermOf(segs[k])
  }

  lemma SomeByte(s: Segment, p: nat) returns (a: nat)
    requires Fits(s) && HasByte(s, p)
    ensures Holds(s, a) && a / PageSize == p
  {
    a := if s.vaddr < PageSize * p then PageSize * p else s.vaddr;
  }

  /** In a fresh address space every byte has the permissions of its own segment exactly when the segments that share
      a page agree with the first one on it. */
  lemma PermsIff(segs: seq<Segment>, r: map<nat, Perm>)
    requires (forall k :: 0 <= k < |segs| ==> Fits(segs[k])) && FirstPerms(map[], segs, |segs|, r)
    ensures OwnPerms(r, segs) <==> Agree(segs)
  {
    hide Touches, PermOf, Fits;
    forall k, a: nat | 0 <= k < |segs| && Holds(segs[k], a)
        ensures HasByte(segs[k], a / PageSize) && a / PageSize in r {
      HeldIsTouched(segs[k], a);
    }
    if OwnPerms(r, segs) {
      forall k, p: nat | 0 <= k < |segs| && HasByte(segs[k], p)
        ensures PermOf(segs[FirstTouch(segs, |segs|, p)]) == PermOf(segs[k])
      {
        var a := SomeByte(segs[k], p);
      }
    }
  }

  /** The page of a byte of a header has the permissions in the header's flag word. */
  ghost predicate PermittedByte(h: Ph, r: map<nat, Perm>, j: nat) {
    && (h.vaddr + j) / PageSize in r
    && r[(h.vaddr + j) / PageSize].writable == BitOf(h.flags as int, 1)
    && r[(h.vaddr + j) / PageSize].executable == BitOf(h.flags as int, 0)
  }

  /** Every byte of a loadable header is on a page with the header's permissions, when the sharers of a page agree. */
  lemma LoadPerms(d: Buf, r: map<nat, Perm>, i: nat, j: nat)
    requires |d| >= HeaderSize && Passes(d, PhCount(d))
    requires var segs := SegmentsOf(d, PhCount(d));
             (forall k :: 0 <= k < |segs| ==> Fits(segs[k])) && Agree(segs) && FirstPerms(map[], segs, |segs|, r)
    requires i < PhCount(d) && Loads(d, i) && j < Header(d, i).memsz
    ensures PermittedByte(Header(d, i), r, j)
  {
    hide Header, Fate, U16At, U64At, Touches, Agree, FirstPerms, BitOf;
    var segs, h := SegmentsOf(d, PhCount(d)), Header(d, i);
    assert Fate(d, i).None?;
    var k := SegmentIn(d, PhCount(d), i);
    PermsIff(segs, r);
    assert Holds(segs[k], h.vaddr + j);
  }

  lemma {:induction false} AllFit(d: Buf, n: nat)
    requires |d| >= HeaderSize && Passes(d, n)
    ensures forall k :: 0 <= k < |SegmentsOf(d, n)| ==> Fits(SegmentsOf(d, n)[k])
  {
    hide Fate, Header, Inside;
    if n > 0 {
      assert Fate(d, n - 1).None?;
      AllFit(d, n - 1);
    }
  }

  /** Every segment is that of a loadable header. */
  lemma {:induction false} HeaderIn(d: Buf, n: nat, k: nat) returns (i: nat)
    requires |d| >= HeaderSize && n <= PhCount(d) && Passes(d, n) && k < |SegmentsOf(d, n)|
    ensures i < n && Loads(d, i) && SegmentsOf(d, n)[k] == SegmentOf(d, Header(d, i))
  {
    hide Fate, Header, SegmentOf;
    if k < |SegmentsOf(d, n - 1)| { i := HeaderIn(d, n - 1, k); } else { i := n - 1; }
  }

  /** spawn_user_process up to the stack: the file is loaded and its segments are mapped in a fresh address space. */
  method LoadProcess(d: Buf) returns (r: Result, space: AddressSpace, ok: bool)
    ensures r.Ok? <==> |d| >= HeaderSize && ValidHeader(d) && TableChecked(d) && Passes(d, PhCount(d))
                       && Canonical(U64At(d, 24))
    ensures r.Ok? ==> r.image.entry == U64At(d, 24)
    ensures r.Ok? ==>
              (ok <==> forall i :: 0 <= i < PhCount(d) && Loads(d, i) ==> Mappable(SegmentOf(d, Header(d, i))))
    ensures r.Ok? && ok && DisjointSegments(r.image.segments) ==>
              forall i, j: nat :: 0 <= i < PhCount(d) && Loads(d, i) && j < Header(d, i).memsz ==>
                LoadedByte(d, Header(d, i), space.pages, j)
    ensures r.Ok? && ok && Agree(r.image.segments) ==>
              forall i, j: nat :: 0 <= i < PhCount(d) && Loads(d, i) && j < Header(d, i).memsz ==>
                PermittedByte(Header(d, i), space.perms, j)
  {
    hide Fate, Header, DisjointSegments, Agree, Loaded, FirstPerms, LoadedByte, PermittedByte, Mappable, U16At, U64At;
    space := new AddressSpace();
    ok := false;
    r := LoadElf(d);
    if !r.Ok? { return; }
    var segments := r.image.segments;
    AllFit(d, PhCount(d));
    ok := space.MapAll(segments);
    if !ok {
      var k :| 0 <= k < |segments| && !Mappable(segments[k]);
      var i := HeaderIn(d, PhCount(d), k);
      return;
    }
    forall i | 0 <= i < PhCount(d) && Loads(d, i) ensures Mappable(SegmentOf(d, Header(d, i))) {
      var k := SegmentIn(d, PhCount(d), i);
    }
    if DisjointSegments(segments) {
      forall i, j: nat | 0 <= i < PhCount(d) && Loads(d, i) && j < Header(d, i).memsz
        ensures LoadedByte(d, Header(d, i), space.pages, j)
      {
        LoadImage(d, space.pages, i, j);
      }
    }
    if Agree(segments) {
      forall i, j: nat | 0 <= i < PhCount(d) && Loads(d, i) && j < Header(d, i).memsz
        ensures PermittedByte(Header(d, i), space.perms, j)
      {
        LoadPerms(d, space.perms, i, j);
      }
    }
  }

  /** Read-only code and writable data behind it on one page: the data is not writable. */
  lemma DataAfterCode(code: Segment, data: Segment, r: map<nat, Perm>)
    requires Fits(code) && Fits(data) && code.vaddr == 0x1000 && code.size == 0x64 && data.vaddr == 0x1064
             && data.size == 8
    requires !code.writable && data.writable && FirstPerms(map[], [code, data], 2, r)
    ensures Holds(data, 0x1064) && 0x1064 / PageSize in r && !r[0x1064 / PageSize].writable
  {
    assert Touches([code, data][0], 1);
    assert FirstTouch([code, data], 2, 1) == 0;
  }
}
