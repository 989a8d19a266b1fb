/** The SLUB allocator of kernel objects and the boot frame allocator under it (memory/src/slub.rs:26-187,
    memory/src/heap.rs:74-105). */
module Slub {
  import opened Bytes
  import opened Sequences

  const Classes: seq<nat> := [0x1000, 0x2000, 0x4000, 0x8000, 0x1_0000, 0x2_0000, 0x4_0000, 0x8_0000, 0x10_0000]

  const VaStart: nat := 0xFFFF_D000_0000_0000
  const PageSize: nat := 4096

  /** size_class_index: the first class that is large enough. */
  function ClassFrom(size: nat, i: nat): (r: Option<nat>)
    requires i <= 9
    ensures r.Some? ==> i <= r.value < 9 && Classes[r.value] >= size && forall j :: i <= j < r.value ==>
            Classes[j] < size
    ensures r.None? ==> forall j :: i <= j < 9 ==> Classes[j] < size
    decreases 9 - i
  {
    if i == 9 then None else if Classes[i] >= size then Some(i) else ClassFrom(size, i + 1)
  }

  function ClassIndex(size: nat): Option<nat> { ClassFrom(size, 0) }

  /** A block ever handed out: its address and class. */
  datatype Block = Block(va: nat, cls: nat)

  /** The caches and bump pointer of SlubAllocator, with every block handed out so far in address order and
      the request each live block serves. */
  datatype State = State(caches: seq<seq<nat>>, nextVa: nat, blocks: seq<Block>, live: map<nat, nat>)

  function Len(b: Block): nat
    requires b.cls < 9
  {
    Classes[b.cls]
  }

  /** The blocks lie end to end from the start of the range to the bump pointer. */
  ghost predicate Tiled(s: State) {
    && (forall i :: 0 <= i < |s.blocks| ==> s.blocks[i].cls < 9)
    && (s.blocks == [] ==> s.nextVa == VaStart)
    && (s.blocks != [] ==>
       s.blocks[0].va == VaStart && s.nextVa == s.blocks[|s.blocks| - 1].va + Len(s.blocks[|s.blocks| - 1]))
    && (forall i, j :: 0 <= i < j < |s.blocks| && j == i + 1 ==> s.blocks[j].va == s.blocks[i].va + Len(s.blocks[i]))
  }

  ghost predicate IsBlock(s: State, va: nat, cls: nat) { Block(va, cls) in s.blocks }

  /** What a cache holds are blocks of its class, each once, none of them live. */
  ghost predicate CachesOk(s: State) {
    && |s.caches| == 9
    && (forall c :: 0 <= c < 9 ==> NoDup(s.caches[c]))
    && (forall c, va {:trigger va in s.caches[c]} :: 0 <= c < 9 && va in s.caches[c] ==>
       IsBlock(s, va, c) && va !in s.live)
  }

  /** A live block is of the class of its request. */
  ghost predicate LiveOk(s: State) {
    forall va :: va in s.live ==> ClassIndex(s.live[va]).Some? && IsBlock(s, va, ClassIndex(s.live[va]).value)
  }

  ghost predicate Kept(s: State, b: Block)
    requires |s.caches| == 9
  {
    b.cls < 9 && (b.va in s.live || b.va in s.caches[b.cls])
  }

  /** Every block is live or in the cache of its class, and nothing else is in either. */
  ghost predicate Shared(s: State) {
    CachesOk(s) && LiveOk(s) && forall b :: b in s.blocks ==> Kept(s, b)
  }

  ghost predicate Valid(s: State) { Tiled(s) && Shared(s) }

  /** Distinct blocks do not overlap. */
  lemma {:induction false} Ordered(s: State, i: nat, j: nat)
    requires Tiled(s) && i < j < |s.blocks|
    ensures s.blocks[i].va + Len(s.blocks[i]) <= s.blocks[j].va
    decreases j - i
  {
    if i + 1 < j {
      Ordered(s, i, j - 1);
      assert s.blocks[j].va == s.blocks[j - 1].va + Len(s.blocks[j - 1]);
    }
  }

  lemma {:induction false} InsideRange(s: State, i: nat)
    requires Tiled(s) && i < |s.blocks|
    ensures VaStart <= s.blocks[i].va && s.blocks[i].va + Len(s.blocks[i]) <= s.nextVa
  {
    if i > 0 { Ordered(s, 0, i); }
    if i + 1 < |s.blocks| { Ordered(s, i, |s.blocks| - 1); }
  }

  /** The address determines the block. */
  lemma SameVa(s: State, a: Block, b: Block)
    requires Tiled(s) && a in s.blocks && b in s.blocks && a.va == b.va
    ensures a == b
  {
    var i :| 0 <= i < |s.blocks| && s.blocks[i] == a;
    var j :| 0 <= j < |s.blocks| && s.blocks[j] == b;
    if i < j { Ordered(s, i, j); }
    if j < i { Ordered(s, j, i); }
  }

  lemma {:induction false} Aligned(s: State, i: nat)
    requires Tiled(s) && i < |s.blocks|
    ensures s.blocks[i].va % PageSize == 0
  {
    if i > 0 {
      Aligned(s, i - 1);
      WholePages(s.blocks[i - 1].cls);
      assert s.blocks[i].va == s.blocks[i - 1].va + Len(s.blocks[i - 1]);
    }
  }

  lemma WholePages(c: nat)
    requires c < 9
    ensures Classes[c] % PageSize == 0
  {
  }

  /** Two live allocations are disjoint, inside the mapped range, page aligned, and as large as what was asked for. */
  lemma LiveApart(s: State, a: nat, b: nat)
    requires Valid(s) && a in s.live && b in s.live
    ensures ClassIndex(s.live[a]).Some? && ClassIndex(s.live[b]).Some?
    ensures var la, lb := Classes[ClassIndex(s.live[a]).value], Classes[ClassIndex(s.live[b]).value];
            && la >= s.live[a] && VaStart <= a && a + la <= s.nextVa && a % PageSize == 0 && la % PageSize == 0
            && (a != b ==> a + la <= b || b + lb <= a)
  {
    var x, y := Block(a, ClassIndex(s.live[a]).value), Block(b, ClassIndex(s.live[b]).value);
    assert IsBlock(s, a, x.cls) && IsBlock(s, b, y.cls);
    var i :| 0 <= i < |s.blocks| && s.blocks[i] == x;
    var j :| 0 <= j < |s.blocks| && s.blocks[j] == y;
    InsideRange(s, i);
    Aligned(s, i);
    WholePages(x.cls);
    if i < j { Ordered(s, i, j); }
    if j < i { Ordered(s, j, i); }
  }

  /** Every address of the range is in exactly one block. */
  lemma {:induction false} Covered(s: State, x: nat, i: nat) returns (k: nat)
    requires Tiled(s) && i < |s.blocks| && s.blocks[i].va <= x < s.nextVa
    ensures k < |s.blocks| && s.blocks[k].va <= x < s.blocks[k].va + Len(s.blocks[k])
    decreases |s.blocks| - i
  {
    if x < s.blocks[i].va + Len(s.blocks[i]) {
      k := i;
    } else {
      assert i + 1 < |s.blocks| ==> s.blocks[i + 1].va == s.blocks[i].va + Len(s.blocks[i]);
      k := Covered(s, x, i + 1);
    }
  }

  // ---------------------------------------------------------------- operations

  /** alloc served from a cache: the block freed last. */
  function TakeCached(s: State, cls: nat, size: nat): State
    requires cls < |s.caches| && s.caches[cls] != []
  {
    var c := s.caches[cls];
    s.(caches := s.caches[cls := c[..|c| - 1]], live := s.live[c[|c| - 1] := size])
  }

  /** alloc served with fresh pages at the bump pointer. */
  function TakeFresh(s: State, cls: nat, size: nat): State
    requires cls < 9
  {
    s.(nextVa := s.nextVa + Classes[cls], blocks := s.blocks + [Block(s.nextVa, cls)], live := s.live[s.nextVa := size])
  }

  /** free. */
  function Put(s: State, va: nat, cls: nat): State
    requires cls < |s.caches|
  {
    s.(caches := s.caches[cls := s.caches[cls] + [va]], live := s.live - {va})
  }

  /** A cached block is in no other cache. */
  lemma OneCache(s: State, va: nat, c: nat, d: nat)
    requires Tiled(s) && CachesOk(s) && c < 9 && d < 9 && va in s.caches[c] && va in s.caches[d]
    ensures c == d
  {
    SameVa(s, Block(va, c), Block(va, d));
  }

  lemma TakeCachedKeeps(s: State, cls: nat, size: nat)
    requires Valid(s) && ClassIndex(size) == Some(cls) && s.caches[cls] != []
    ensures Valid(TakeCached(s, cls, size))
    ensures s.caches[cls][|s.caches[cls]| - 1] !in s.live
  {
    hide ClassFrom, Tiled, IsBlock, NoDup;
    var c := s.caches[cls];
    var va := c[|c| - 1];
    assert va in c;
    var r := TakeCached(s, cls, size);
    PopFacts(c);
    CachePopped(s, cls, size);
    assert IsBlock(r, va, cls) by { SameBlocks(s, r, va, cls); }
    forall x | x in r.live ensures ClassIndex(r.live[x]).Some? && IsBlock(r, x, ClassIndex(r.live[x]).value) {
      if x != va { SameBlocks(s, r, x, ClassIndex(s.live[x]).value); }
    }
    forall b | b in r.blocks ensures Kept(r, b) {
      assert Kept(s, b);
    }
    SameTiles(s, r);
  }

  lemma CachePopped(s: State, cls: nat, size: nat)
    requires Tiled(s) && CachesOk(s) && cls < 9 && s.caches[cls] != []
    ensures CachesOk(TakeCached(s, cls, size))
  {
    hide Tiled, IsBlock, NoDup;
    var c := s.caches[cls];
    var va := c[|c| - 1];
    var r := TakeCached(s, cls, size);
    PopFacts(c);
    forall d, x | 0 <= d < 9 && x in r.caches[d] ensures IsBlock(r, x, d) && x !in r.live {
      assert x in s.caches[d];
      SameBlocks(s, r, x, d);
      if x == va { OneCache(s, va, cls, d); }
    }
  }

  lemma PopFacts(c: seq<nat>)
    requires NoDup(c) && c != []
    ensures NoDup(c[..|c| - 1]) && c[|c| - 1] !in c[..|c| - 1]
    ensures forall x :: x in c <==> x in c[..|c| - 1] || x == c[|c| - 1]
  {
    assert c == c[..|c| - 1] + [c[|c| - 1]];
  }

  lemma SameBlocks(s: State, r: State, va: nat, c: nat)
    requires s.blocks <= r.blocks
    ensures IsBlock(s, va, c) ==> IsBlock(r, va, c)
  {
  }

  lemma SameTiles(s: State, r: State)
    requires Tiled(s) && r.blocks == s.blocks && r.nextVa == s.nextVa
    ensures Tiled(r)
  {
  }

  lemma TakeFreshKeeps(s: State, cls: nat, size: nat)
    requires Valid(s) && ClassIndex(size) == Some(cls)
    ensures Valid(TakeFresh(s, cls, size)) && s.nextVa !in s.live
  {
    hide ClassFrom, Tiled, IsBlock, NoDup;
    var r := TakeFresh(s, cls, size);
    FreshVa(s);
    FreshTiles(s, cls, size);
    forall d, x | 0 <= d < 9 && x in r.caches[d] ensures IsBlock(r, x, d) && x !in r.live {
      assert x in s.caches[d];
      SameBlocks(s, r, x, d);
      assert x != s.nextVa by { NotFresh(s, x, d); }
    }
    forall x | x in r.live ensures ClassIndex(r.live[x]).Some? && IsBlock(r, x, ClassIndex(r.live[x]).value) {
      if x != s.nextVa { SameBlocks(s, r, x, ClassIndex(s.live[x]).value); }
    }
    forall b | b in r.blocks ensures Kept(r, b) {
      if b in s.blocks { assert Kept(s, b); }
    }
  }

  lemma NotFresh(s: State, va: nat, c: nat)
    requires IsBlock(s, va, c) && forall b :: b in s.blocks ==> b.va != s.nextVa
    ensures va != s.nextVa
  {
  }

  lemma FreshTiles(s: State, cls: nat, size: nat)
    requires Tiled(s) && cls < 9
    ensures Tiled(TakeFresh(s, cls, size)) && IsBlock(TakeFresh(s, cls, size), s.nextVa, cls)
  {
    var r := TakeFresh(s, cls, size);
    assert Block(s.nextVa, cls) == r.blocks[|s.blocks|];
    forall i, j | 0 <= i < j < |r.blocks| && j == i + 1 ensures r.blocks[j].va == r.blocks[i].va + Len(r.blocks[i]) {
      if j < |s.blocks| { assert s.blocks[j].va == s.blocks[i].va + Len(s.blocks[i]); }
    }
  }

  /** No block starts at the bump pointer yet. */
  lemma FreshVa(s: State)
    requires Valid(s)
    ensures forall b :: b in s.blocks ==> b.va != s.nextVa
    ensures s.nextVa !in s.live
  {
    forall b | b in s.blocks ensures b.va != s.nextVa {
      var i :| 0 <= i < |s.blocks| && s.blocks[i] == b;
      InsideRange(s, i);
      Nonempty(b.cls);
    }
  }

  lemma Nonempty(c: nat)
    requires c < 9
    ensures Classes[c] > 0
  {
  }

  lemma PutKeeps(s: State, va: nat, size: nat)
    requires Valid(s) && va in s.live && ClassIndex(size).Some? && ClassIndex(size) == ClassIndex(s.live[va])
    ensures Valid(Put(s, va, ClassIndex(size).value))
  {
    hide ClassFrom, Tiled, IsBlock;
    var cls := ClassIndex(size).value;
    var c := s.caches[cls];
    var r := Put(s, va, cls);
    assert IsBlock(s, va, cls) && va !in c;
    forall d, x | 0 <= d < 9 && x in r.caches[d] ensures IsBlock(r, x, d) && x !in r.live {
      SameBlocks(s, r, x, d);
      if x != va || d != cls { assert x in s.caches[d]; }
    }
    forall x | x in r.live ensures ClassIndex(r.live[x]).Some? && IsBlock(r, x, ClassIndex(r.live[x]).value) {
      SameBlocks(s, r, x, ClassIndex(s.live[x]).value);
    }
    forall b | b in r.blocks ensures Kept(r, b) {
      assert Kept(s, b);
      assert (c + [va])[|c|] == va;
      if b.va == va { BlockOf(s, b, va, cls); }
    }
    SameTiles(s, r);
  }

  lemma BlockOf(s: State, b: Block, va: nat, cls: nat)
    requires Tiled(s) && b in s.blocks && IsBlock(s, va, cls) && b.va == va
    ensures b.cls == cls
  {
    SameVa(s, b, Block(va, cls));
  }
}
