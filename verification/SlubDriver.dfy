/** The allocator at work (memory/src/slub.rs:129-186, memory/src/heap.rs:92-105): frames taken from the
    boot array one by one, pages mapped one by one, and requests that fail half way. */
module SlubDriver {
  import opened Bytes
  import opened Sequences
  import opened Slub
  import opened Arith

  function Full(f: Option<nat>): seq<nat> { if f.Some? then [f.value] else [] }

  /** The frames still to be handed out, in order. */
  function Remaining(frames: seq<Option<nat>>, next: nat, limit: nat): (r: seq<nat>)
    requires limit <= |frames|
    decreases limit - next
  {
    if next >= limit then [] else Full(frames[next]) + Remaining(frames, next + 1, limit)
  }

  lemma {:induction false} RemainingSame(a: seq<Option<nat>>, b: seq<Option<nat>>, next: nat, limit: nat)
    requires limit <= |a| == |b| && forall i :: next <= i < limit ==> a[i] == b[i]
    ensures Remaining(a, next, limit) == Remaining(b, next, limit)
    decreases limit - next
  {
    hide Full;
    if next < limit {
      RemainingSame(a, b, next + 1, limit);
      assert a[next] == b[next];
    }
  }

  class FrameAllocator {
    const frames: array<Option<nat>>
    var next: nat
    const limit: nat

    constructor (frames: array<Option<nat>>, limit: nat)
      requires limit <= frames.Length
      ensures this.frames == frames && Avail() == Remaining(frames[..], 0, limit)
    {
      this.frames, this.limit, next := frames, limit, 0;
    }

    ghost function Avail(): seq<nat>
      reads this, frames
    {
      if limit <= frames.Length then Remaining(frames[..], next, limit) else []
    }

    /** allocate_frame: empty entries are skipped, the first full one is taken. */
    method AllocateFrame() returns (r: Option<nat>)
      requires limit <= frames.Length
      modifies this`next, frames
      ensures old(Avail()) == [] ==> r == None && Avail() == []
      ensures old(Avail()) != [] ==> r == Some(old(Avail())[0]) && Avail() == old(Avail())[1..]
    {
      ghost var was := frames[..];
      while next < limit
        invariant frames[..] == was && Remaining(was, next, limit) == Remaining(was, old(next), limit)
      {
        if frames[next].Some? {
          r := frames[next];
          frames[next] := None;
          next := next + 1;
          RemainingSame(was, frames[..], next, limit);
          return;
        }
        next := next + 1;
      }
      r := None;
    }
  }

  /** No frame backs two pages, and no frame still to be handed out backs any. */
  ghost predicate FramesOk(mapping: map<nat, nat>, avail: seq<nat>) {
    && NoDup(avail)
    && (forall p :: p in mapping ==> mapping[p] !in avail)
    && (forall p, q :: p in mapping && q in mapping && p != q ==> mapping[p] != mapping[q])
  }

  lemma FrameTaken(mapping: map<nat, nat>, avail: seq<nat>)
    requires FramesOk(mapping, avail) && avail != []
    ensures FramesOk(mapping, avail[1..]) && avail[0] !in avail[1..] && forall p :: p in mapping ==>
            mapping[p] != avail[0]
  {
    assert avail == [avail[0]] + avail[1..];
    assert avail[0] in avail;
  }

  /** Frames the first `k` pages take: one for each page, and what its page tables need. */
  function Need(tables: seq<nat>, k: nat): (r: nat)
    requires k <= |tables|
    ensures r >= k
  {
    if k == 0 then 0 else Need(tables, k - 1) + 1 + tables[k - 1]
  }

  lemma {:induction false} NeedMonotone(tables: seq<nat>, j: nat, k: nat)
    requires j <= k <= |tables|
    ensures Need(tables, j) + (k - j) <= Need(tables, k)
  {
    if j < k { NeedMonotone(tables, j, k - 1); }
  }

  /** A page mapped at or above page `first` is what a failed request left, and such a request took the last frame. */
  ghost predicate Spent(mapping: map<nat, nat>, first: nat, avail: seq<nat>) {
    avail != [] ==> forall p :: p in mapping ==> p < first
  }

  /** All frames of page `i` and of the pages before it are there. */
  predicate Backed(tables: seq<nat>, avail: seq<nat>, i: nat) { i < |tables| && Need(tables, i + 1) <= |avail| }

  /** The frame that page `i` is mapped to: the first one after those of the earlier pages. */
  function FrameOf(tables: seq<nat>, avail: seq<nat>, i: nat): nat
    requires Backed(tables, avail, i)
  {
    avail[Need(tables, i)]
  }

  /** What mapping the next `n` pages from `first` does with the frames `avail`: exactly the pages whose frames are
      there become mapped. */
  ghost predicate PagesMapped(was: map<nat, nat>, now: map<nat, nat>, first: nat, n: nat, tables: seq<nat>,
      avail: seq<nat>) {
    && (forall p :: p in was ==> p in now && now[p] == was[p])
    && (forall p :: p in now <==> p in was || (first <= p < first + n && Backed(tables, avail, p - first)))
    && (forall p :: p in now && p !in was ==> now[p] == FrameOf(tables, avail, p - first))
  }

  function Pages(c: nat): nat
    requires c < 9
  {
    Classes[c] / PageSize
  }

  /** Pages of the class that serves a request. */
  function PagesOf(size: nat): (r: nat)
    ensures r <= 256
  {
    match ClassIndex(size)
    case None => 0
    case Some(c) => ClassPages(c); Pages(c)
  }

  /** A block of the request's class is cached. */
  ghost predicate Cached(s: State, size: nat) {
    ClassIndex(size).Some? && ClassIndex(size).value < |s.caches| && s.caches[ClassIndex(size).value] != []
  }

  /** The request took a cached block, or a fresh one when none was cached. */
  ghost predicate Served(s: State, size: nat, r: State) {
    && ClassIndex(size).Some?
    && var c := ClassIndex(size).value;
       r == if Cached(s, size) then TakeCached(s, c, size) else TakeFresh(s, c, size)
  }

  class SlubAllocator {
    var caches: seq<seq<nat>>
    var nextVa: nat
    var mapping: map<nat, nat>
    const fa: FrameAllocator
    ghost var blocks: seq<Block>
    ghost var live: map<nat, nat>

    ghost function V(): State
      reads this
    {
      State(caches, nextVa, blocks, live)
    }

    /** The tiling of the range, its pages mapped, frames used once, and pages beyond it only when no frame is
        left. */
    ghost predicate Valid()
      reads this, fa, fa.frames
    {
      && Slub.Valid(V()) && fa.limit <= fa.frames.Length && FramesOk(mapping, fa.Avail())
         && Spent(mapping, nextVa / PageSize, fa.Avail())
      && nextVa % PageSize == 0 && forall p :: VaStart / PageSize <= p < nextVa / PageSize ==> p in mapping
    }

    constructor (fa: FrameAllocator)
      requires fa.limit <= fa.frames.Length && NoDup(fa.Avail())
      ensures Valid() && this.fa == fa && V() == State(seq(9, _ => []), VaStart, [], map[]) && mapping == map[]
    {
      caches, nextVa, mapping, blocks, live := seq(9, _ => []), VaStart, map[], [], map[];
      this.fa := fa;
    }

    /** map_to: takes `tables` frames for page tables; fails on a page that is mapped already. */
    method MapTo(page: nat, frame: nat, tables: nat) returns (ok: bool)
      requires fa.limit <= fa.frames.Length && FramesOk(mapping, fa.Avail())
      requires frame !in fa.Avail() && forall p :: p in mapping ==> mapping[p] != frame
      modifies this`mapping, fa`next, fa.frames
      ensures FramesOk(mapping, fa.Avail())
      ensures ok <==> page !in old(mapping) && tables <= |old(fa.Avail())|
      ensures mapping == if ok then old(mapping)[page := frame] else old(mapping)
      ensures page in old(mapping) ==> fa.Avail() == old(fa.Avail())
      ensures page !in old(mapping) ==> fa.Avail() == old(fa.Avail())[Min(tables, |old(fa.Avail())|)..]
    {
      if page in mapping { return false; }
      ghost var all := fa.Avail();
      var i := 0;
      while i < tables
        invariant 0 <= i <= tables && i <= |all| && fa.Avail() == all[i..]
        invariant mapping == old(mapping) && FramesOk(mapping, fa.Avail()) && frame !in fa.Avail()
      {
        ghost var avail := fa.Avail();
        if avail != [] {
          FrameTaken(mapping, avail);
          assert avail[1..] == all[i + 1..];
        }
        var f := fa.AllocateFrame();
        if f.None? { return false; }
        i := i + 1;
      }
      mapping := mapping[page := frame];
      ok := true;
    }

    /** One turn of the page loop: a frame for the page, then its mapping. */
    method MapPage(page: nat, tables: nat) returns (ok: bool)
      requires fa.limit <= fa.frames.Length && FramesOk(mapping, fa.Avail()) && (fa.Avail() != [] ==> page !in mapping)
      modifies this`mapping, fa`next, fa.frames
      ensures FramesOk(mapping, fa.Avail())
      ensures ok <==> 1 + tables <= |old(fa.Avail())|
      ensures mapping == if ok then old(mapping)[page := old(fa.Avail())[0]] else old(mapping)
      ensures fa.Avail() == old(fa.Avail())[Min(1 + tables, |old(fa.Avail())|)..]
    {
      hide FramesOk, Remaining;
      ghost var avail := fa.Avail();
      if avail != [] { FrameTaken(mapping, avail); }
      var frame := fa.AllocateFrame();
      if frame.None? { return false; }
      ok := MapTo(page, frame.value, tables);
      assert avail[1..][Min(tables, |avail| - 1)..] == avail[Min(1 + tables, |avail|)..];
    }

    /** The page loop of alloc: it stops at the first page whose frames are not all there. */
    method MapPages(n: nat, tables: seq<nat>) returns (ok: bool)
      requires fa.limit <= fa.frames.Length && FramesOk(mapping, fa.Avail()) && n <= |tables|
               && Spent(mapping, nextVa / PageSize, fa.Avail())
      modifies this`mapping, fa`next, fa.frames
      ensures FramesOk(mapping, fa.Avail())
      ensures ok <==> Need(tables, n) <= |old(fa.Avail())|
      ensures fa.Avail() == old(fa.Avail())[Min(Need(tables, n), |old(fa.Avail())|)..]
      ensures PagesMapped(old(mapping), mapping, nextVa / PageSize, n, tables, old(fa.Avail()))
    {
      hide FramesOk, Remaining, PagesMapped, Spent;
      var first := nextVa / PageSize;
      ghost var all := fa.Avail();
      NoneYet(mapping, first, tables, all);
      var i := 0;
      while i < n
        invariant 0 <= i <= n && Need(tables, i) <= |all| && FramesOk(mapping, fa.Avail())
                  && fa.Avail() == all[Need(tables, i)..]
        invariant PagesMapped(old(mapping), mapping, first, i, tables, all)
      {
        ghost var was, avail := mapping, fa.Avail();
        NotYet(old(mapping), mapping, first, i, tables, all);
        var mapped := MapPage(first + i, tables[i]);
        NeedMonotone(tables, i + 1, n);
        if !mapped {
          StoppedAt(old(mapping), mapping, first, i, n, tables, all);
          return false;
        }
        assert avail[1 + tables[i]..] == all[Need(tables, i + 1)..];
        OneMore(old(mapping), was, mapping, first, i, tables, all);
        i := i + 1;
      }
      ok := true;
    }

    /** alloc. It succeeds exactly when a block is cached or the frames suffice. A request that fails for want of
        frames has used up every one of them, and frames do not come back: from then on only cached blocks can be
        had. The blocks stay as they were, and the pages it could still map stay mapped beyond them. */
    method Alloc(size: nat, tables: seq<nat>) returns (r: Option<nat>)
      requires Valid() && |tables| >= 256
      modifies this, fa`next, fa.frames
      ensures Valid()
      ensures r.Some? <==>
              ClassIndex(size).Some? && (old(Cached(V(), size)) || Need(tables, PagesOf(size)) <= |old(fa.Avail())|)
      ensures r.None? ==> V() == old(V())
      ensures r.Some? ==> r.value !in old(live) && r.value in live && live[r.value] == size && r.value % PageSize == 0
      ensures r.Some? ==> Served(old(V()), size, V())
      ensures r.None? && ClassIndex(size).Some? ==> fa.Avail() == []
      ensures ClassIndex(size).None? || old(Cached(V(), size)) ==>
              mapping == old(mapping) && fa.Avail() == old(fa.Avail())
      ensures ClassIndex(size).Some? && !old(Cached(V(), size)) ==>
                && fa.Avail() == old(fa.Avail())[Min(Need(tables, PagesOf(size)), |old(fa.Avail())|)..]
                && PagesMapped(old(mapping), mapping, old(nextVa) / PageSize, PagesOf(size), tables, old(fa.Avail()))
    {
      hide FramesOk, Slub.Valid, ClassIndex, Remaining, Spent, PagesMapped, Need;
      var idx := FindClass(size);
      NineCaches(V());
      if idx.None? { return None; }
      ClassPages(idx.value);
      if caches[idx.value] != [] {
        r := TakeBlock(idx.value, size);
      } else {
        r := MapBlock(idx.value, size, tables);
      }
      if r.Some? { LiveApart(V(), r.value, r.value); }
    }

    /** The fast path: the block freed last. */
    method TakeBlock(c: nat, size: nat) returns (r: Option<nat>)
      requires Valid() && ClassIndex(size) == Some(c) && c < |caches| && caches[c] != []
      modifies this`caches, this`live
      ensures Valid() && V() == TakeCached(old(V()), c, size)
      ensures r.Some? && r.value !in old(live) && r.value in live && live[r.value] == size
    {
      hide FramesOk, Slub.Valid, ClassIndex;
      TakeCachedKeeps(V(), c, size);
      var va := caches[c][|caches[c]| - 1];
      caches := caches[c := caches[c][..|caches[c]| - 1]];
      live := live[va := size];
      r := Some(va);
    }

    /** The slow path: fresh pages at the bump pointer. */
    method MapBlock(c: nat, size: nat, tables: seq<nat>) returns (r: Option<nat>)
      requires Valid() && |tables| >= 256 && c < 9 && Pages(c) <= 256 && ClassIndex(size) == Some(c)
      modifies this, fa`next, fa.frames
      ensures Valid() && (r.None? ==> V() == old(V()) && fa.Avail() == [])
      ensures r.Some? <==> Need(tables, Pages(c)) <= |old(fa.Avail())|
      ensures r.Some? ==> V() == TakeFresh(old(V()), c, size) && r.value == old(nextVa) && r.value !in old(live)
      ensures fa.Avail() == old(fa.Avail())[Min(Need(tables, Pages(c)), |old(fa.Avail())|)..]
      ensures PagesMapped(old(mapping), mapping, old(nextVa) / PageSize, Pages(c), tables, old(fa.Avail()))
    {
      hide FramesOk, Slub.Valid, ClassIndex, Remaining, Backed, FrameOf, Need;
      ghost var s, was, all := V(), mapping, fa.Avail();
      ClassPages(c);
      var ok := MapPages(Pages(c), tables);
      if !ok { return None; }
      AllThere(was, mapping, nextVa / PageSize, Pages(c), tables, all);
      TakeFreshKeeps(s, c, size);
      r := Some(nextVa);
      blocks := blocks + [Block(nextVa, c)];
      live := live[nextVa := size];
      nextVa := nextVa + Classes[c];
    }

    /** free, called with the size class the block was allocated with. */
    method Free(va: nat, size: nat)
      requires Valid() && va in live && ClassIndex(size).Some? && ClassIndex(size) == ClassIndex(live[va])
      modifies this
      ensures Valid() && V() == Put(old(V()), va, ClassIndex(size).value) && mapping == old(mapping)
    {
      hide FramesOk, Tiled, ClassFrom, NoDup;
      PutKeeps(V(), va, size);
      var idx := ClassIndex(size).value;
      caches := caches[idx := caches[idx] + [va]];
      live := live - {va};
    }
  }

  lemma NoneYet(was: map<nat, nat>, first: nat, tables: seq<nat>, all: seq<nat>)
    ensures PagesMapped(was, was, first, 0, tables, all)
  {
  }

  lemma NotYet(start: map<nat, nat>, was: map<nat, nat>, first: nat, i: nat, tables: seq<nat>, all: seq<nat>)
    requires PagesMapped(start, was, first, i, tables, all) && Spent(start, first, all)
    ensures all != [] ==> first + i !in was && first + i !in start
  {
    hide Backed, FrameOf;
  }

  lemma OneMore(start: map<nat, nat>, was: map<nat, nat>, now: map<nat, nat>, first: nat, i: nat, tables: seq<nat>,
      all: seq<nat>)
    requires PagesMapped(start, was, first, i, tables, all) && Backed(tables, all, i)
    requires first + i !in start && now == was[first + i := FrameOf(tables, all, i)]
    ensures PagesMapped(start, now, first, i + 1, tables, all)
  {
    hide Backed, FrameOf;
  }

  lemma StoppedAt(start: map<nat, nat>, now: map<nat, nat>, first: nat, i: nat, n: nat, tables: seq<nat>, all: seq<nat>)
    requires i < n <= |tables| && PagesMapped(start, now, first, i, tables, all) && !Backed(tables, all, i)
    ensures PagesMapped(start, now, first, n, tables, all)
  {
    hide Need, FrameOf;
    forall k: nat | i <= k < n ensures !Backed(tables, all, k) { NeedMonotone(tables, i + 1, k + 1); }
  }

  lemma AllThere(was: map<nat, nat>, now: map<nat, nat>, first: nat, n: nat, tables: seq<nat>, all: seq<nat>)
    requires n <= |tables| && PagesMapped(was, now, first, n, tables, all) && Need(tables, n) <= |all|
    ensures forall p :: first <= p < first + n ==> p in now
  {
    hide Need, FrameOf;
    forall p | first <= p < first + n ensures p in now { NeedMonotone(tables, p - first + 1, n); }
  }

  method OneFrame() returns (s: SlubAllocator)
    ensures fresh(s) && fresh(s.fa) && fresh(s.fa.frames) && s.Valid() && s.fa.Avail() == [7] && s.mapping == map[]
    ensures s.V() == State(seq(9, _ => []), VaStart, [], map[])
  {
    hide FramesOk, Slub.Valid, Spent;
    var frames := new Option<nat>[1](_ => Some(7));
    var fa := new FrameAllocator(frames, 1);
    assert frames[..] == [Some(7)];
    assert fa.Avail() == [7] by { assert Remaining(frames[..], 1, 1) == []; }
    s := new SlubAllocator(fa);
  }

  lemma Requests(tables: seq<nat>)
    requires tables == seq(256, _ => 0)
    ensures ClassIndex(8192).Some? && ClassIndex(4096).Some? && PagesOf(8192) == 2 && PagesOf(4096) == 1
    ensures Need(tables, 1) == 1 && Need(tables, 2) == 2 && Need(tables, 0) == 0
  {
    assert ClassIndex(8192) == Some(1) && ClassIndex(4096) == Some(0);
    assert Need(tables, 0) == 0 && Need(tables, 1) == 1;
  }

  /** One frame and a request for two pages: the request fails, its first page stays mapped, and the next request,
      for a single page, fails too. */
  method OneFrameShort() returns (s: SlubAllocator, first: Option<nat>, second: Option<nat>)
    ensures fresh(s) && s.Valid() && first == None && second == None
    ensures s.mapping == map[VaStart / PageSize := 7] && s.nextVa == VaStart && s.live == map[]
  {
    hide FramesOk, Slub.Valid, Spent, ClassIndex, PagesOf, Need, Remaining;
    s := OneFrame();
    var tables := seq(256, _ => 0);
    Requests(tables);
    first := s.Alloc(8192, tables);
    assert Backed(tables, [7], 0) && !Backed(tables, [7], 1);
    assert s.mapping == map[VaStart / PageSize := 7];
    second := s.Alloc(4096, tables);
    assert !Backed(tables, [], 0);
  }

  lemma NineCaches(s: State)
    requires Slub.Valid(s)
    ensures |s.caches| == 9
  {
  }

  /** size_class_index as the search it is. */
  method FindClass(size: nat) returns (r: Option<nat>)
    ensures r == ClassIndex(size) && (r.Some? ==> r.value < 9)
  {
    var i := 0;
    while i < 9
      invariant 0 <= i <= 9 && ClassFrom(size, i) == ClassIndex(size)
    {
      if Classes[i] >= size { return Some(i); }
      i := i + 1;
    }
    r := None;
  }

  lemma ClassPages(c: nat)
    requires c < 9
    ensures 0 < Pages(c) <= 256 && Classes[c] % PageSize == 0 && Classes[c] == PageSize * Pages(c)
  {
  }
}
