/** The split virtqueue (drivers/src/virtqueue.rs): descriptor table with its free list, available
    and used rings indexed by wrapping 16-bit counters, and the device at the other end. */
module VirtqueueModel {
  import opened Arith
  import opened Bytes
  import opened Sequences

  /** One entry of the slice given to push_chain. */
  datatype Buffer = Buffer(addr: nat, len: nat, flags: u16)

  datatype Desc = Desc(addr: nat, len: nat, flags: u16, next: u16)

  datatype UsedElem = UsedElem(id: nat, len: nat)

  // VIRTQ_DESC_F_NEXT is bit 0.

  predicate HasNext(flags: u16) { flags % 2 == 1 }

  function SetNext(flags: u16): (r: u16)
    ensures HasNext(r)
  {
    if flags % 2 == 1 then flags else flags + 1
  }

  function ClearNext(flags: u16): (r: u16)
    ensures !HasNext(r)
  {
    flags - flags % 2
  }

  /** Queue sizes the specification allows: powers of two; the table fits one page. */
  predicate QueueSize(q: nat) { q in {1, 2, 4, 8, 16, 32, 64, 128, 256} }

  datatype Table = Table(desc: seq<Desc>, freeHead: u16, numFree: nat)

  /** Who holds each descriptor: the free list in order, the chains in flight by head with the
      buffers submitted for them, and the chain (if any) of every descriptor. */
  datatype Book = Book(free: seq<nat>, chains: map<nat, seq<nat>>, bufs: map<nat, seq<Buffer>>, home: seq<Option<nat>>)

  /** `free` is what following `next` from free_head reaches. */
  ghost predicate FreeList(t: Table, free: seq<nat>) {
    && |free| == t.numFree
    && (forall i :: 0 <= i < |free| ==> free[i] < |t.desc|)
    && (free != [] ==> free[0] == t.freeHead as int)
    && (forall i, j :: 0 <= i < j < |free| && j == i + 1 ==> t.desc[free[i]].next as int == free[j])
  }

  function Filled(b: Buffer, last: bool, next: u16): Desc {
    Desc(b.addr, b.len, if last then ClearNext(b.flags) else SetNext(b.flags), next)
  }

  /** The descriptors `c` carry `bufs` in order, linked through NEXT. */
  ghost predicate ChainOk(desc: seq<Desc>, c: seq<nat>, bufs: seq<Buffer>) {
    && |c| == |bufs| > 0
    && (forall i :: 0 <= i < |c| ==> c[i] < |desc|)
    && (forall i :: 0 <= i < |c| ==> desc[c[i]] == Filled(bufs[i], i == |c| - 1, desc[c[i]].next))
    && (forall i, j :: 0 <= i < j < |c| && j == i + 1 ==> desc[c[i]].next as int == c[j])
  }

  /** Free list and chains partition the table. */
  ghost predicate Partition(q: nat, b: Book) {
    && |b.home| == q && NoDup(b.free) && b.chains.Keys == b.bufs.Keys
    && (forall d :: d in b.free ==> d < q)
    && (forall h :: h in b.chains ==> NoDup(b.chains[h]) && |b.chains[h]| > 0 && b.chains[h][0] == h)
    && (forall h, d :: h in b.chains && d in b.chains[h] ==> d < q)
    && (forall d :: 0 <= d < q ==> (b.home[d] == None <==> d in b.free))
    && (forall d, h :: 0 <= d < q ==> (b.home[d] == Some(h) <==> h in b.chains && d in b.chains[h]))
  }

  ghost predicate TableOk(q: nat, t: Table, b: Book) {
    && |t.desc| == q <= 256 && Partition(q, b) && FreeList(t, b.free)
    && (forall h :: h in b.chains ==> ChainOk(t.desc, b.chains[h], b.bufs[h]))
  }

  // ---------------------------------------------------------------- submitting and freeing

  /** The table after push_chain took the descriptors `c` for `bufs`. */
  ghost predicate PushedTable(t: Table, c: seq<nat>, bufs: seq<Buffer>, r: Table) {
    && |c| == |bufs| > 0 && |r.desc| == |t.desc| && r.numFree == t.numFree - |c|
    && (forall i :: 0 <= i < |c| ==> c[i] < |t.desc|)
    && (forall i :: 0 <= i < |c| ==> r.desc[c[i]] == Filled(bufs[i], i == |c| - 1, t.desc[c[i]].next))
    && (forall d :: 0 <= d < |t.desc| && d !in c ==> r.desc[d] == t.desc[d])
    && r.freeHead == t.desc[c[|c| - 1]].next
  }

  ghost function PushBook(b: Book, bufs: seq<Buffer>): Book
    requires 0 < |bufs| <= |b.free|
  {
    var c := b.free[..|bufs|];
    Book(b.free[|bufs|..], b.chains[c[0] := c], b.bufs[c[0] := bufs],
      seq(|b.home|, d requires 0 <= d < |b.home| => if d in c then Some(c[0]) else b.home[d]))
  }

  lemma FreeApart(q: nat, b: Book, h: nat)
    requires Partition(q, b) && h in b.chains
    ensures forall d :: d in b.chains[h] ==> d !in b.free
    ensures h !in b.free
  {
    assert b.chains[h][0] in b.chains[h];
    forall d | d in b.chains[h] ensures d !in b.free { assert b.home[d] == Some(h); }
  }

  lemma PushKeeps(q: nat, t: Table, b: Book, bufs: seq<Buffer>, r: Table)
    requires TableOk(q, t, b) && 0 < |bufs| <= |b.free|
    requires PushedTable(t, b.free[..|bufs|], bufs, r)
    ensures TableOk(q, r, PushBook(b, bufs))
    ensures b.free[0] !in b.chains
  {
    forall h | h in b.chains ensures h !in b.free {
      FreeApart(q, b, h);
    }
    assert b.free[0] in b.free;
    PushPartition(q, b, bufs);
    PushFreeList(t, b.free, bufs, r);
    PushChains(q, t, b, bufs, r);
  }

  lemma PushChains(q: nat, t: Table, b: Book, bufs: seq<Buffer>, r: Table)
    requires TableOk(q, t, b) && 0 < |bufs| <= |b.free| && PushedTable(t, b.free[..|bufs|], bufs, r)
    ensures forall h :: h in PushBook(b, bufs).chains ==>
            ChainOk(r.desc, PushBook(b, bufs).chains[h], PushBook(b, bufs).bufs[h])
  {
    hide NoDup, ChainOk, PushedTable;
    var c := b.free[..|bufs|];
    var b2 := PushBook(b, bufs);
    forall h | h in b2.chains ensures ChainOk(r.desc, b2.chains[h], b2.bufs[h]) {
      if h == c[0] {
        forall i, j | 0 <= i < j < |c| && j == i + 1
            ensures t.desc[c[i]].next as int == c[j] { assert t.desc[b.free[i]].next as int == b.free[j]; }
        NewChain(t, c, bufs, r);
      } else {
        FreeApart(q, b, h);
        assert ChainOk(t.desc, b.chains[h], b.bufs[h]);
        OldChain(t, c, bufs, r, b.chains[h], b.bufs[h]);
      }
    }
  }

  lemma NewChain(t: Table, c: seq<nat>, bufs: seq<Buffer>, r: Table)
    requires PushedTable(t, c, bufs, r)
    requires forall i, j :: 0 <= i < j < |c| && j == i + 1 ==> t.desc[c[i]].next as int == c[j]
    ensures ChainOk(r.desc, c, bufs)
  {
  }

  lemma OldChain(t: Table, c: seq<nat>, bufs: seq<Buffer>, r: Table, x: seq<nat>, was: seq<Buffer>)
    requires PushedTable(t, c, bufs, r) && ChainOk(t.desc, x, was)
    requires forall y :: y in x ==> y !in c
    ensures ChainOk(r.desc, x, was)
  {
    forall i | 0 <= i < |x| ensures r.desc[x[i]] == t.desc[x[i]] { assert x[i] in x; }
  }

  lemma PushFreeList(t: Table, free: seq<nat>, bufs: seq<Buffer>, r: Table)
    requires FreeList(t, free) && NoDup(free) && 0 < |bufs| <= |free| && PushedTable(t, free[..|bufs|], bufs, r)
    ensures FreeList(r, free[|bufs|..])
  {
    var n := |bufs|;
    var rest := free[n..];
    forall i | 0 <= i < |rest| ensures r.desc[rest[i]] == t.desc[rest[i]] {
      assert rest[i] == free[n + i] && free[n + i] !in free[..n];
    }
    assert r.freeHead == t.desc[free[n - 1]].next;
    forall i, j | 0 <= i < j < |rest| && j == i + 1 ensures r.desc[rest[i]].next as int == rest[j] {
      assert t.desc[free[n + i]].next as int == free[n + j];
    }
  }

  lemma PushPartition(q: nat, b: Book, bufs: seq<Buffer>)
    requires Partition(q, b) && 0 < |bufs| <= |b.free| && b.free[0] !in b.chains
    ensures Partition(q, PushBook(b, bufs))
  {
    var c := b.free[..|bufs|];
    var r := PushBook(b, bufs);
    assert b.free == c + r.free;
    assert forall d :: d in b.free <==> d in c || d in r.free;
    forall d | 0 <= d < q ensures r.home[d] == None <==> d in r.free {
      if d in c { assert d !in r.free; }
    }
    forall d, h | 0 <= d < q ensures r.home[d] == Some(h) <==> h in r.chains && d in r.chains[h] {
      if d in c { assert d in b.free && b.home[d] == None; }
    }
    assert r.chains.Keys == r.bufs.Keys;
  }

  function Before(c: seq<nat>, i: nat, head: u16): nat
    requires i < |c|
  {
    if i == 0 then head as int else c[i - 1]
  }

  /** The table after free_chain returned the descriptors `c` of a chain, one by one. */
  ghost predicate FreedTable(t: Table, c: seq<nat>, r: Table) {
    && |c| > 0 && |r.desc| == |t.desc| && r.numFree == t.numFree + |c|
    && (forall i :: 0 <= i < |c| ==> c[i] < |t.desc|)
    && (forall i {:trigger Before(c, i, t.freeHead)} :: 0 <= i < |c| ==>
       r.desc[c[i]].next as int == Before(c, i, t.freeHead))
    && (forall d :: 0 <= d < |t.desc| && d !in c ==> r.desc[d] == t.desc[d])
    && r.freeHead as int == c[|c| - 1]
  }

  function Reversed(s: seq<nat>): (r: seq<nat>)
    ensures |r| == |s| && forall i :: 0 <= i < |s| ==> r[i] == s[|s| - 1 - i]
  {
    seq(|s|, i requires 0 <= i < |s| => s[|s| - 1 - i])
  }

  ghost function FreeBook(b: Book, h: nat): Book
    requires h in b.chains
  {
    var c := b.chains[h];
    Book(Reversed(c) + b.free, b.chains - {h}, b.bufs - {h},
      seq(|b.home|, d requires 0 <= d < |b.home| => if d in c then None else b.home[d]))
  }

  lemma FreeKeeps(q: nat, t: Table, b: Book, h: nat, r: Table)
    requires TableOk(q, t, b) && h in b.chains && FreedTable(t, b.chains[h], r)
    ensures TableOk(q, r, FreeBook(b, h))
  {
    hide ChainOk;
    var c := b.chains[h];
    var b2 := FreeBook(b, h);
    FreePartition(q, b, h);
    FreeApart(q, b, h);
    forall g | g in b2.chains ensures ChainOk(r.desc, b2.chains[g], b2.bufs[g]) {
      OtherChain(q, t, b, h, r, g);
    }
    FreeFreeList(t, b.free, c, r);
  }

  /** A chain that is not freed keeps its descriptors. */
  lemma OtherChain(q: nat, t: Table, b: Book, h: nat, r: Table, g: nat)
    requires TableOk(q, t, b) && h in b.chains && FreedTable(t, b.chains[h], r) && g in b.chains && g != h
             && g in b.bufs
    ensures ChainOk(r.desc, b.chains[g], b.bufs[g])
  {
    hide FreeList;
    var x := b.chains[g];
    assert ChainOk(t.desc, x, b.bufs[g]);
    forall i | 0 <= i < |x| ensures r.desc[x[i]] == t.desc[x[i]] {
      assert x[i] in x && b.home[x[i]] == Some(g);
    }
  }

  lemma FreeFreeList(t: Table, free: seq<nat>, c: seq<nat>, r: Table)
    requires FreeList(t, free) && FreedTable(t, c, r)
    requires forall d :: d in free ==> d !in c
    ensures FreeList(r, Reversed(c) + free)
  {
    var s := Reversed(c) + free;
    forall i, j | 0 <= i < j < |s| && j == i + 1 ensures r.desc[s[i]].next as int == s[j] {
      if i < |c| {
        var k := |c| - 1 - i;
        assert s[i] == c[k] && s[j] == if k == 0 then free[0] else c[k - 1];
        assert r.desc[c[k]].next as int == Before(c, k, t.freeHead);
      } else {
        var k := i - |c|;
        assert s[i] == free[k] && s[j] == free[k + 1] && free[k] in free;
        assert t.desc[free[k]].next as int == free[k + 1];
      }
    }
  }

  lemma FreePartition(q: nat, b: Book, h: nat)
    requires Partition(q, b) && h in b.chains
    ensures Partition(q, FreeBook(b, h))
  {
    var c := b.chains[h];
    var r := FreeBook(b, h);
    forall d: nat ensures d in r.free <==> d in c || d in b.free {
      if d in c {
        var i :| 0 <= i < |c| && c[i] == d;
        assert r.free[|c| - 1 - i] == d;
      }
      if d in b.free {
        var i :| 0 <= i < |b.free| && b.free[i] == d;
        assert r.free[|c| + i] == d;
      }
    }
    forall d | d in c ensures d < q && d !in b.free {
      assert b.home[d] == Some(h);
    }
    forall i, j | 0 <= i < j < |r.free| ensures r.free[i] != r.free[j] {
      if i < |c| && j >= |c| { assert r.free[i] in c && r.free[j] in b.free; }
    }
    forall d, g | 0 <= d < q ensures r.home[d] == Some(g) <==> g in r.chains && d in r.chains[g] {
      if d in c { assert b.home[d] == Some(h); }
    }
  }

  // ---------------------------------------------------------------- what the device reads

  /** The buffers a device finds from descriptor `d`, following NEXT over at most `fuel` descriptors
      (a chain has no more descriptors than the table). */
  function Walk(desc: seq<Desc>, d: nat, fuel: nat): seq<Buffer>
    decreases fuel
  {
    if fuel == 0 || d >= |desc| then []
    else
      var x := desc[d];
      [Buffer(x.addr, x.len, ClearNext(x.flags))] + if HasNext(x.flags) then Walk(desc, x.next as int, fuel - 1) else []
  }

  function Plain(bufs: seq<Buffer>): (r: seq<Buffer>)
    ensures |r| == |bufs|
  {
    seq(|bufs|, i requires 0 <= i < |bufs| => bufs[i].(flags := ClearNext(bufs[i].flags)))
  }

  lemma {:induction false} WalkFrom(desc: seq<Desc>, c: seq<nat>, bufs: seq<Buffer>, i: nat, fuel: nat)
    requires ChainOk(desc, c, bufs) && i < |c| && fuel >= |c| - i
    ensures Walk(desc, c[i], fuel) == Plain(bufs[i..])
    decreases |c| - i
  {
    hide Walk;
    var x := desc[c[i]];
    assert x == Filled(bufs[i], i == |c| - 1, x.next);
    WalkOnce(desc, c[i], fuel);
    PlainOnce(bufs, i);
    if i + 1 < |c| {
      assert x.next as int == c[i + 1];
      WalkFrom(desc, c, bufs, i + 1, fuel - 1);
    }
  }

  lemma WalkOnce(desc: seq<Desc>, d: nat, fuel: nat)
    requires d < |desc| && fuel > 0
    ensures Walk(desc, d, fuel) == [Buffer(desc[d].addr, desc[d].len, ClearNext(desc[d].flags))]
                                   + if HasNext(desc[d].flags) then Walk(desc, desc[d].next as int, fuel - 1) else []
  {
  }

  lemma PlainOnce(bufs: seq<Buffer>, i: nat)
    requires i < |bufs|
    ensures Plain(bufs[i..]) == [bufs[i].(flags := ClearNext(bufs[i].flags))] + Plain(bufs[i + 1..])
    ensures Plain([]) == []
  {
  }

  /** From its head a device reads exactly the buffers submitted, in order. */
  lemma WalkIs(q: nat, t: Table, b: Book, h: nat)
    requires TableOk(q, t, b) && h in b.chains
    ensures Walk(t.desc, h, q) == Plain(b.bufs[h])
  {
    var c := b.chains[h];
    DistinctBound(c, q);
    WalkFrom(t.desc, c, b.bufs[h], 0, q);
    assert b.bufs[h][0..] == b.bufs[h];
  }

  /** Every chain in flight holds a descriptor of its own. */
  lemma ChainsBound(q: nat, b: Book)
    requires Partition(q, b)
    ensures |b.chains.Keys| + |b.free| <= q
  {
    hide Partition;
    forall h | h in b.chains.Keys ensures h < q && h !in b.free { HeadApart(q, b, h); }
    FreeFits(q, b);
    DistinctSize(b.free);
    BelowSize(b.chains.Keys + Elements(b.free), q);
  }

  lemma HeadApart(q: nat, b: Book, h: nat)
    requires Partition(q, b) && h in b.chains
    ensures h < q && h !in b.free
  {
    FreeApart(q, b, h);
    assert b.chains[h][0] in b.chains[h];
  }

  lemma FreeFits(q: nat, b: Book)
    requires Partition(q, b)
    ensures NoDup(b.free) && forall d :: d in b.free ==> d < q
  {
  }

  // ---------------------------------------------------------------- rings

  /** The slot of the unbounded counter `k`. */
  function Slot(q: nat, k: nat): (r: nat)
    requires q > 0
    ensures r < q
  {
    Mod(k, q)
  }

  lemma {:induction false} ModAdd(k: nat, m: nat, q: nat)
    requires q > 0
    ensures Mod(k + Mul(m, q), q) == Mod(k, q)
  {
    if m > 0 { ModAdd(k, m - 1, q); }
  }

  /** A 16-bit counter modulo the queue size is the unbounded counter modulo the queue size. */
  lemma {:induction false} WrapAgrees(q: nat, k: nat)
    requires QueueSize(q)
    ensures Slot(q, k % 0x1_0000) == Slot(q, k)
    decreases k
  {
    hide Mod, Mul;
    if k >= 0x1_0000 {
      WrapAgrees(q, k - 0x1_0000);
      var m := Divides(q);
      ModAdd(k - 0x1_0000, m, q);
    }
  }

  lemma Divides(q: nat) returns (m: nat)
    requires QueueSize(q)
    ensures Mul(m, q) == 0x1_0000
  {
    m := if q == 1 then 0x1_0000 else if q == 2 then 0x8000 else if q == 4 then 0x4000 else if q == 8 then 0x2000
         else if q == 16 then 0x1000 else if q == 32 then 0x800 else if q == 64 then 0x400 else if q == 128 then 0x200
             else 0x100;
    NativeMul(m, q);
  }

  lemma SlotsApart(q: nat, j: nat, k: nat)
    requires QueueSize(q) && j < k < j + q
    ensures Slot(q, j) != Slot(q, k)
  {
    DivMod(j, q);
    DivMod(k, q);
    if Slot(q, j) == Slot(q, k) {
      if Div(k, q) <= Div(j, q) { MulMono(Div(k, q), Div(j, q), q); } else { MulMono(Div(j, q) + 1, Div(k, q), q); }
    }
  }

  /** Shared memory and the driver's own fields. */
  datatype Queue = Queue(t: Table, avail: seq<u16>, availIdx: u16, used: seq<UsedElem>, usedIdx: u16, lastUsed: u16)

  /** History: heads submitted and how many the device fetched; chains the device holds; its
      completions, how many the driver popped and what it got; popped chains not yet freed. */
  datatype Log = Log(
    book: Book,
    pushed: seq<nat>, taken: nat,
    held: seq<nat>,
    done: seq<UsedElem>, popped: nat, got: seq<UsedElem>,
    owned: seq<nat>)

  function Ids(s: seq<UsedElem>): (r: seq<nat>)
    ensures |r| == |s|
  {
    seq(|s|, i requires 0 <= i < |s| => s[i].id)
  }

  ghost function InFlight(l: Log): multiset<nat>
    requires l.taken <= |l.pushed| && l.popped <= |l.done|
  {
    multiset(l.pushed[l.taken..]) + multiset(l.held) + multiset(Ids(l.done[l.popped..])) + multiset(l.owned)
  }

  ghost predicate AvailOk(q: nat, s: Queue, l: Log)
    requires q > 0
  {
    && |s.avail| == q && l.taken <= |l.pushed| && s.availIdx as int == |l.pushed| % 0x1_0000
    && (forall k :: l.taken <= k < |l.pushed| ==> s.avail[Slot(q, k)] as int == l.pushed[k])
  }

  ghost predicate UsedOk(q: nat, s: Queue, l: Log)
    requires q > 0
  {
    && |s.used| == q && l.popped <= |l.done| && s.usedIdx as int == |l.done| % 0x1_0000
    && s.lastUsed as int == l.popped % 0x1_0000 && l.got == l.done[..l.popped]
    && (forall k :: l.popped <= k < |l.done| ==> s.used[Slot(q, k)] == l.done[k])
  }

  /** The whole invariant: every chain in flight is at exactly one stage of its round trip. */
  ghost predicate Inv(q: nat, s: Queue, l: Log) {
    && QueueSize(q) && TableOk(q, s.t, l.book) && AvailOk(q, s, l) && UsedOk(q, s, l)
    && InFlight(l) == multiset(l.book.chains.Keys)
  }

  /** Neither ring ever holds more than the queue size minus the free descriptors. */
  lemma RingRoom(q: nat, s: Queue, l: Log)
    requires Inv(q, s, l)
    ensures 0 <= |l.pushed| - l.taken && 0 <= |l.done| - l.popped
    ensures (|l.pushed| - l.taken) + |l.held| + (|l.done| - l.popped) + |l.owned| <= q - s.t.numFree
  {
    ChainsBound(q, l.book);
    assert |InFlight(l)| == |l.book.chains.Keys|;
  }

  // ---------------------------------------------------------------- steps

  function PushQueue(q: nat, s: Queue, t: Table, head: u16): Queue
    requires q > 0 && |s.avail| == q
  {
    s.(t := t, avail := s.avail[Slot(q, s.availIdx as int) := head], availIdx := (s.availIdx as int + 1) % 0x1_0000)
  }

  ghost function PushLog(l: Log, bufs: seq<Buffer>): Log
    requires 0 < |bufs| <= |l.book.free|
  {
    l.(book := PushBook(l.book, bufs), pushed := l.pushed + [l.book.free[0]])
  }

  lemma PushInv(q: nat, s: Queue, l: Log, bufs: seq<Buffer>, t: Table)
    requires Inv(q, s, l) && 0 < |bufs| <= s.t.numFree && PushedTable(s.t, l.book.free[..|bufs|], bufs, t)
    ensures Inv(q, PushQueue(q, s, t, s.t.freeHead), PushLog(l, bufs))
  {
    hide TableOk, PushedTable, Slot, PushBook, QueueSize, UsedOk;
    assert l.book.free[0] == s.t.freeHead as int && |l.book.free| == s.t.numFree by { FreeFacts(q, s.t, l.book, bufs); }
    RingRoom(q, s, l);
    PushKeeps(q, s.t, l.book, bufs, t);
    PushAvail(q, s, l, bufs, t);
    PushUsed(q, s, l, bufs, t);
    var l2 := PushLog(l, bufs);
    PushKeys(l.book, bufs);
    assert l2.pushed[l2.taken..] == l.pushed[l.taken..] + [l.book.free[0]];
  }

  lemma FreeFacts(q: nat, t: Table, b: Book, bufs: seq<Buffer>)
    requires TableOk(q, t, b) && 0 < |bufs| <= t.numFree
    ensures |b.free| == t.numFree && b.free[0] == t.freeHead as int
  {
  }

  lemma PushKeys(b: Book, bufs: seq<Buffer>)
    requires 0 < |bufs| <= |b.free| && b.free[0] !in b.chains
    ensures multiset(PushBook(b, bufs).chains.Keys) == multiset(b.chains.Keys) + multiset{b.free[0]}
  {
    assert PushBook(b, bufs).chains.Keys == b.chains.Keys + {b.free[0]};
  }

  lemma PushUsed(q: nat, s: Queue, l: Log, bufs: seq<Buffer>, t: Table)
    requires q > 0 && |s.avail| == q && UsedOk(q, s, l) && 0 < |bufs| <= |l.book.free|
    ensures UsedOk(q, PushQueue(q, s, t, s.t.freeHead), PushLog(l, bufs))
  {
    hide PushBook, Slot;
  }

  lemma PushAvail(q: nat, s: Queue, l: Log, bufs: seq<Buffer>, t: Table)
    requires QueueSize(q) && AvailOk(q, s, l) && 0 < |bufs| <= |l.book.free| && l.book.free[0] == s.t.freeHead as int
    requires |l.pushed| - l.taken < q
    ensures AvailOk(q, PushQueue(q, s, t, s.t.freeHead), PushLog(l, bufs))
  {
    hide PushBook, Slot;
    var l2, s2 := PushLog(l, bufs), PushQueue(q, s, t, s.t.freeHead);
    WrapAgrees(q, |l.pushed|);
    forall k | l2.taken <= k < |l2.pushed| ensures s2.avail[Slot(q, k)] as int == l2.pushed[k] {
      if k < |l.pushed| { SlotsApart(q, k, |l.pushed|); }
    }
  }

  /** The device fetches the next available head. */
  lemma FetchInv(q: nat, s: Queue, l: Log)
    requires Inv(q, s, l) && l.taken < |l.pushed|
    ensures s.avail[Slot(q, l.taken % 0x1_0000)] as int == l.pushed[l.taken] && l.pushed[l.taken] in l.book.chains
    ensures Inv(q, s, FetchLog(l))
  {
    hide TableOk, Slot, QueueSize;
    WrapAgrees(q, l.taken);
    var l2 := FetchLog(l);
    assert l.pushed[l.taken..] == [l.pushed[l.taken]] + l2.pushed[l2.taken..];
    assert l.pushed[l.taken] in InFlight(l);
  }

  /** The device sees work exactly when a submitted head is not fetched yet. */
  lemma FetchReads(q: nat, s: Queue, l: Log)
    requires Inv(q, s, l)
    ensures s.availIdx as int == l.taken % 0x1_0000 <==> l.taken == |l.pushed|
  {
    hide TableOk;
    RingRoom(q, s, l);
    WrapApart(l.taken, |l.pushed|);
  }

  ghost function FetchLog(l: Log): Log
    requires l.taken < |l.pushed|
  {
    l.(taken := l.taken + 1, held := l.held + [l.pushed[l.taken]])
  }

  function Drop(s: seq<nat>, i: nat): (r: seq<nat>)
    requires i < |s|
    ensures multiset(s) == multiset(r) + multiset{s[i]}
  {
    assert s == s[..i] + [s[i]] + s[i + 1..];
    s[..i] + s[i + 1..]
  }

  function CompleteQueue(q: nat, s: Queue, e: UsedElem): Queue
    requires q > 0 && |s.used| == q
  {
    s.(used := s.used[Slot(q, s.usedIdx as int) := e], usedIdx := (s.usedIdx as int + 1) % 0x1_0000)
  }

  ghost function CompleteLog(l: Log, i: nat, len: nat): Log
    requires i < |l.held|
  {
    l.(held := Drop(l.held, i), done := l.done + [UsedElem(l.held[i], len)])
  }

  /** The device returns a chain it holds, in any order. */
  lemma CompleteInv(q: nat, s: Queue, l: Log, i: nat, len: nat)
    requires Inv(q, s, l) && i < |l.held|
    ensures Inv(q, CompleteQueue(q, s, UsedElem(l.held[i], len)), CompleteLog(l, i, len))
  {
    hide TableOk, Slot, QueueSize, Drop;
    RingRoom(q, s, l);
    var e := UsedElem(l.held[i], len);
    var s2, l2 := CompleteQueue(q, s, e), CompleteLog(l, i, len);
    CompleteUsed(q, s, l, i, len);
    assert l2.done[l2.popped..] == l.done[l.popped..] + [e];
    assert Ids(l2.done[l2.popped..]) == Ids(l.done[l.popped..]) + [l.held[i]];
  }

  lemma CompleteUsed(q: nat, s: Queue, l: Log, i: nat, len: nat)
    requires QueueSize(q) && UsedOk(q, s, l) && i < |l.held| && |l.done| - l.popped < q
    ensures UsedOk(q, CompleteQueue(q, s, UsedElem(l.held[i], len)), CompleteLog(l, i, len))
  {
    hide Slot, QueueSize, Drop;
    var e := UsedElem(l.held[i], len);
    SizePositive(q);
    WrapAgrees(q, |l.done|);
    WrapNext(|l.done|);
    assert (l.done + [e])[..l.popped] == l.done[..l.popped];
    assert Slot(q, s.usedIdx as int) == Slot(q, |l.done|);
    RingAppend(q, s.used, l.done, l.popped, e);
  }

  lemma WrapNext(n: nat)
    ensures (n % 0x1_0000 + 1) % 0x1_0000 == (n + 1) % 0x1_0000
  {
  }

  /** Writing the next slot of a ring keeps the unread part and adds to it. */
  lemma RingAppend(q: nat, ring: seq<UsedElem>, done: seq<UsedElem>, popped: nat, e: UsedElem)
    requires QueueSize(q) && q > 0 && |ring| == q && popped <= |done| < popped + q
    requires forall k :: popped <= k < |done| ==> ring[Slot(q, k)] == done[k]
    ensures forall k :: popped <= k < |done| + 1 ==> ring[Slot(q, |done|) := e][Slot(q, k)] == (done + [e])[k]
  {
    hide Slot, QueueSize;
    forall k | popped <= k < |done| + 1 ensures ring[Slot(q, |done|) := e][Slot(q, k)] == (done + [e])[k] {
      if k < |done| { SlotsApart(q, k, |done|); }
    }
  }

  lemma SizePositive(q: nat)
    requires QueueSize(q)
    ensures 0 < q <= 256
  {
  }

  /** pop_used's test and slot: nothing to pop exactly when every completion was popped, else the next one. */
  lemma PopReads(q: nat, s: Queue, l: Log)
    requires Inv(q, s, l)
    ensures s.lastUsed == s.usedIdx <==> l.popped == |l.done|
    ensures l.popped < |l.done| ==> s.used[Slot(q, s.lastUsed as int)] == l.done[l.popped]
  {
    hide TableOk, Slot;
    RingRoom(q, s, l);
    WrapAgrees(q, l.popped);
    WrapApart(l.popped, |l.done|);
  }

  lemma WrapApart(a: nat, b: nat)
    requires a <= b <= a + 256
    ensures a % 0x1_0000 == b % 0x1_0000 <==> a == b
  {
  }

  function PopQueue(s: Queue): Queue {
    s.(lastUsed := (s.lastUsed as int + 1) % 0x1_0000)
  }

  ghost function PopLog(l: Log): Log
    requires l.popped < |l.done|
  {
    l.(popped := l.popped + 1, got := l.got + [l.done[l.popped]], owned := l.owned + [l.done[l.popped].id])
  }

  lemma PopInv(q: nat, s: Queue, l: Log)
    requires Inv(q, s, l) && l.popped < |l.done|
    ensures Inv(q, PopQueue(s), PopLog(l)) && l.done[l.popped].id in l.book.chains
  {
    hide TableOk, Slot, UsedOk, AvailOk, Ids;
    var l2 := PopLog(l);
    PopUsed(q, s, l);
    PopAvail(q, s, l);
    PopIds(l);
    assert l.done[l.popped].id in InFlight(l);
  }

  lemma PopUsed(q: nat, s: Queue, l: Log)
    requires q > 0 && UsedOk(q, s, l) && l.popped < |l.done|
    ensures UsedOk(q, PopQueue(s), PopLog(l))
  {
    hide Slot;
    assert l.done[..l.popped + 1] == l.done[..l.popped] + [l.done[l.popped]];
  }

  lemma PopAvail(q: nat, s: Queue, l: Log)
    requires q > 0 && AvailOk(q, s, l) && UsedOk(q, s, l) && l.popped < |l.done|
    ensures AvailOk(q, PopQueue(s), PopLog(l))
  {
  }

  lemma PopIds(l: Log)
    requires l.popped < |l.done|
    ensures multiset(Ids(l.done[l.popped..])) == multiset(Ids(l.done[l.popped + 1..])) + multiset{l.done[l.popped].id}
  {
    assert Ids(l.done[l.popped..]) == [l.done[l.popped].id] + Ids(l.done[l.popped + 1..]);
  }

  ghost function FreeLog(l: Log, i: nat): Log
    requires i < |l.owned| && l.owned[i] in l.book.chains
  {
    l.(book := FreeBook(l.book, l.owned[i]), owned := Drop(l.owned, i))
  }

  lemma OwnedInFlight(q: nat, s: Queue, l: Log, i: nat)
    requires Inv(q, s, l) && i < |l.owned|
    ensures l.owned[i] in l.book.chains
  {
    assert l.owned[i] in InFlight(l);
  }

  lemma FreeInv(q: nat, s: Queue, l: Log, i: nat, t: Table)
    requires Inv(q, s, l) && i < |l.owned| && l.owned[i] in l.book.chains
             && FreedTable(s.t, l.book.chains[l.owned[i]], t)
    ensures Inv(q, s.(t := t), FreeLog(l, i))
  {
    hide TableOk, Slot, QueueSize, Drop, FreedTable;
    var h := l.owned[i];
    FreeKeeps(q, s.t, l.book, h, t);
    FreeKeys(l.book, h);
    assert multiset(l.owned) == multiset(FreeLog(l, i).owned) + multiset{h};
    Cancel(InFlight(FreeLog(l, i)), multiset(FreeLog(l, i).book.chains.Keys), h);
  }

  lemma Cancel(a: multiset<nat>, b: multiset<nat>, h: nat)
    requires a + multiset{h} == b + multiset{h}
    ensures a == b
  {
    assert a == (a + multiset{h}) - multiset{h};
  }

  lemma FreeKeys(b: Book, h: nat)
    requires h in b.chains
    ensures multiset(b.chains.Keys) == multiset(FreeBook(b, h).chains.Keys) + multiset{h}
  {
    assert FreeBook(b, h).chains.Keys == b.chains.Keys - {h};
  }

  // ---------------------------------------------------------------- runs

  datatype Event =
    | Push(bufs: seq<Buffer>)
    | Fetch
    | Complete(i: nat, len: nat)
    | Pop
    | Free(i: nat)

  /** One step of the driver (push_chain, pop_used, free_chain of a popped chain) or of the device. */
  ghost predicate Step(q: nat, s: Queue, l: Log, e: Event, s2: Queue, l2: Log)
    requires Inv(q, s, l)
  {
    match e
    case Push(bufs) =>
      0 < |bufs| <= s.t.numFree && l2 == PushLog(l, bufs)
      && PushedTable(s.t, l.book.free[..|bufs|], bufs, s2.t) && s2 == PushQueue(q, s, s2.t, s.t.freeHead)
    case Fetch => l.taken < |l.pushed| && s2 == s && l2 == FetchLog(l)
    case Complete(i, len) =>
      i < |l.held| && s2 == CompleteQueue(q, s, UsedElem(l.held[i], len)) && l2 == CompleteLog(l, i, len)
    case Pop => l.popped < |l.done| && s2 == PopQueue(s) && l2 == PopLog(l)
    case Free(i) =>
      i < |l.owned| && l.owned[i] in l.book.chains && l2 == FreeLog(l, i)
      && FreedTable(s.t, l.book.chains[l.owned[i]], s2.t) && s2 == s.(t := s2.t)
  }

  lemma StepInv(q: nat, s: Queue, l: Log, e: Event, s2: Queue, l2: Log)
    requires Inv(q, s, l) && Step(q, s, l, e, s2, l2)
    ensures Inv(q, s2, l2)
  {
    hide TableOk, PushedTable, FreedTable, Inv;
    match e
    case Push(bufs) => PushInv(q, s, l, bufs, s2.t);
    case Fetch => FetchInv(q, s, l);
    case Complete(i, len) => CompleteInv(q, s, l, i, len);
    case Pop => PopInv(q, s, l);
    case Free(i) => FreeInv(q, s, l, i, s2.t);
  }

  /** The state after Virtqueue::allocate: one free list over the whole table, empty rings. */
  function FreshTable(q: nat): Table
    requires q <= 256
  {
    Table(seq(q, i requires 0 <= i < q => Desc(0, 0, 0, if i + 1 < q then i + 1 else 0)), 0, q)
  }

  ghost function FreshLog(q: nat): Log {
    Log(Book(seq(q, i => i), map[], map[], seq(q, _ => None)), [], 0, [], [], 0, [], [])
  }

  lemma FreshInv(q: nat, s: Queue)
    requires QueueSize(q) && s.t == FreshTable(q) && |s.avail| == |s.used| == q
             && s.availIdx == s.usedIdx == s.lastUsed == 0
    ensures Inv(q, s, FreshLog(q))
  {
    hide Partition, FreeList;
    var l := FreshLog(q);
    FreshPartition(q);
    assert FreeList(s.t, l.book.free) by { FreshFree(q); }
  }

  lemma FreshPartition(q: nat)
    ensures Partition(q, FreshLog(q).book)
  {
    var free := FreshLog(q).book.free;
    forall d | 0 <= d < q ensures d in free { assert free[d] == d; }
  }

  lemma FreshFree(q: nat)
    requires 0 < q <= 256
    ensures FreeList(FreshTable(q), FreshLog(q).book.free)
  {
  }

  ghost predicate IsRun(q: nat, states: seq<Queue>, logs: seq<Log>, events: seq<Event>) {
    && |states| == |logs| == |events| + 1
    && Inv(q, states[0], logs[0])
    && forall i :: 0 <= i < |events| ==>
         Inv(q, states[i], logs[i]) ==> Step(q, states[i], logs[i], events[i], states[i + 1], logs[i + 1])
  }

  /** After any run the free descriptors and the chains in flight partition the table, a device walking
      a chain in flight reads exactly the buffers submitted, no slot still to be fetched or popped was
      overwritten, and the driver got the device's completions in order, each once. */
  lemma {:induction false} RunInv(q: nat, states: seq<Queue>, logs: seq<Log>, events: seq<Event>, k: nat)
    requires IsRun(q, states, logs, events) && k <= |events|
    ensures Inv(q, states[k], logs[k])
    ensures Partition(q, logs[k].book) && |logs[k].book.free| == states[k].t.numFree
    ensures forall h :: h in logs[k].book.chains ==> Walk(states[k].t.desc, h, q) == Plain(logs[k].book.bufs[h])
    ensures logs[k].popped <= |logs[k].done| && logs[k].got == logs[k].done[..logs[k].popped]
  {
    hide Step;
    if k > 0 {
      RunInv(q, states, logs, events, k - 1);
      StepInv(q, states[k - 1], logs[k - 1], events[k - 1], states[k], logs[k]);
    }
    forall h | h in logs[k].book.chains ensures Walk(states[k].t.desc, h, q) == Plain(logs[k].book.bufs[h]) {
      WalkIs(q, states[k].t, logs[k].book, h);
    }
  }
}
