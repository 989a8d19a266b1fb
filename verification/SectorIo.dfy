/** Sector reads and writes over the virtqueue (drivers/src/virtio.rs:439-585): the driver prepares one
    DMA page, submits header, data and status buffers, polls for the completion and frees the chain, while
    a device conforming to section 5.2.6 of VIRTIO 1.0 takes its steps at any moment. */
module SectorIo {
  import opened Bytes
  import opened Sequences
  import opened VirtqueueModel

  datatype Req = ReadReq(sector: nat) | WriteReq(sector: nat, data: Sector)

  const DataAt: nat := 16
  const StatusAt: nat := 528
  const PageLen: nat := 529

  const FlagWrite: u16 := 2
  const TypeIn: u32 := 0
  const TypeOut: u32 := 1
  const StatusOk: u8 := 0
  const Sentinel: u8 := 0xFF

  predicate IsReq(r: Req) { r.sector < 0x1_0000_0000_0000_0000 }

  /** The DMA page as the driver fills it before submitting. */
  function Prepare(p: Buf, r: Req): (p2: Buf)
    requires |p| == PageLen && IsReq(r)
    ensures |p2| == PageLen
    ensures U32At(p2, 0) == (if r.ReadReq? then TypeIn else TypeOut) && U64At(p2, 8) == r.sector
            && U32At(p2, 4) == 0 && p2[StatusAt] == Sentinel
    ensures r.WriteReq? ==> p2[DataAt..StatusAt] == r.data
  {
    hide U32At;
    var a := PutU32(p, 0, if r.ReadReq? then TypeIn else TypeOut);
    var b := PutU32(a, 4, 0);
    var c := PutU64(b, 8, r.sector);
    var d := c[StatusAt := Sentinel];
    var e := if r.WriteReq? then Splice(d, DataAt, r.data) else d;
    SameWord(e, a, 0);
    SameWord(e, b, 4);
    SameWord(e, c, 8);
    SameWord(e, c, 12);
    e
  }

  lemma SameWord(a: Buf, b: Buf, o: nat)
    requires o + 4 <= |a| && o + 4 <= |b| && a[o] == b[o] && a[o + 1] == b[o + 1] && a[o + 2] == b[o + 2]
             && a[o + 3] == b[o + 3]
    ensures U32At(a, o) == U32At(b, o)
  {
  }

  /** Header, data and status buffers of a request, at physical address `base`. */
  function Chain(base: nat, r: Req): seq<Buffer> {
    [Buffer(base, 16, 0), Buffer(base + DataAt, 512, if r.ReadReq? then FlagWrite else 0),
        Buffer(base + StatusAt, 1, FlagWrite)]
  }

  // ---------------------------------------------------------------- the device

  /** The three buffers of a request lie in the page and are a header, a sector and a status byte. */
  predicate Wired(base: nat, p: Buf, bufs: seq<Buffer>) {
    && |bufs| == 3 && bufs[0].len == 16 && bufs[1].len == 512 && bufs[2].len == 1
    && forall i :: 0 <= i < 3 ==> base <= bufs[i].addr && bufs[i].addr - base + bufs[i].len <= |p|
  }

  function Writable(b: Buffer): bool { b.flags / 2 % 2 == 1 }

  /** The buffers are readable and writable as a request of this kind needs. */
  predicate Directed(kind: u32, bufs: seq<Buffer>)
    requires |bufs| == 3
  {
    && !Writable(bufs[0]) && Writable(bufs[2])
    && ((kind == TypeIn && Writable(bufs[1])) || (kind == TypeOut && !Writable(bufs[1])))
  }

  /** What a conforming device may do with a request: serve it and report OK, or report an error, when
      a read leaves the disk alone and a write touches at most its sector. It writes only the buffers
      marked writable, and serves only requests whose buffers are marked as their kind needs. */
  ghost predicate Serves(base: nat, p: Buf, disk: seq<Sector>, bufs: seq<Buffer>, p2: Buf, disk2: seq<Sector>)
    requires Wired(base, p, bufs)
  {
    var hdr, data, st := bufs[0].addr - base, bufs[1].addr - base, bufs[2].addr - base;
    var kind, sector := U32At(p, hdr), U64At(p, hdr + 8);
    && |p2| == |p| && |disk2| == |disk|
    && (forall i ::
       0 <= i < |p| && !(Writable(bufs[2]) && st <= i < st + 1) && !(Writable(bufs[1]) && data <= i < data + 512) ==>
       p2[i] == p[i])
    && (kind != TypeOut ==> disk2 == disk)
    && (forall s :: 0 <= s < |disk| && s != sector ==> disk2[s] == disk[s])
    && (p2[st] == StatusOk ==>
          && sector < |disk| && Directed(kind, bufs)
          && (kind == TypeIn ==> p2[data..data + 512] == disk[sector])
          && (kind == TypeOut ==> disk2[sector] == p[data..data + 512]))
  }

  // ---------------------------------------------------------------- driver and device together

  /** Where the driver is in its call. `before` is the disk when the request was submitted. */
  datatype Pc =
    | Idle
    | Polling(req: Req, head: nat, before: seq<Sector>)
    | Completed(req: Req, head: nat, before: seq<Sector>)

  datatype Outcome = Done(data: Buf) | IoError

  /** A call that returned, and the disk it left. */
  datatype Call = Call(req: Req, outcome: Outcome, after: seq<Sector>)

  datatype Sys = Sys(s: Queue, l: Log, page: Buf, disk: seq<Sector>, pc: Pc, calls: seq<Call>)

  /** The effect a caller sees: atomic on success, confined to the written sector on error. */
  ghost predicate Atomic(c: Call, before: seq<Sector>) {
    && |c.after| == |before|
    && (c.req.ReadReq? ==> c.after == before)
    && (c.outcome.Done? ==> c.req.sector < |before|)
    && (c.outcome.Done? && c.req.ReadReq? ==> c.outcome.data == before[c.req.sector])
    && (c.outcome.Done? && c.req.WriteReq? ==> c.after == before[c.req.sector := c.req.data])
    && (forall s :: 0 <= s < |before| && s != c.req.sector ==> c.after[s] == before[s])
  }

  function DiskAfter(calls: seq<Call>, first: seq<Sector>, k: nat): seq<Sector>
    requires k <= |calls|
  {
    if k == 0 then first else calls[k - 1].after
  }

  /** The calls are those of a plain disk used one call at a time, from `first` to `last`. */
  ghost predicate Explained(calls: seq<Call>, first: seq<Sector>, last: seq<Sector>) {
    && DiskAfter(calls, first, |calls|) == last
    && forall k {:trigger DiskAfter(calls, first, k)} :: 0 <= k < |calls| ==>
       Atomic(calls[k], DiskAfter(calls, first, k))
  }

  lemma ExplainedMore(calls: seq<Call>, first: seq<Sector>, last: seq<Sector>, c: Call)
    requires Explained(calls, first, last) && Atomic(c, last)
    ensures Explained(calls + [c], first, c.after)
  {
    hide Atomic;
    var more := calls + [c];
    forall k | 0 <= k < |more| ensures Atomic(more[k], DiskAfter(more, first, k)) {
      if k < |calls| {
        assert Atomic(calls[k], DiskAfter(calls, first, k));
      } else {
        assert DiskAfter(more, first, k) == DiskAfter(calls, first, k);
      }
    }
  }

  ghost predicate Quiet(q: nat, x: Sys) {
    && x.l.book.chains == map[] && x.s.t.numFree == q
    && x.l.taken == |x.l.pushed| && x.l.held == [] && x.l.popped == |x.l.done| && x.l.owned == []
  }

  /** Before the device served the request the page holds it and the disk is untouched; afterwards the
      page and the disk are what a conforming device leaves. */
  ghost predicate Pending(base: nat, x: Sys, req: Req, before: seq<Sector>) {
    IsReq(req) && x.disk == before && exists p :: |p| == PageLen && x.page == Prepare(p, req)
  }

  ghost predicate Answered(base: nat, x: Sys, req: Req, before: seq<Sector>) {
    && IsReq(req)
    && exists p :: |p| == PageLen && Wired(base, Prepare(p, req), Chain(base, req))
                   && Serves(base, Prepare(p, req), before, Chain(base, req), x.page, x.disk)
  }

  ghost predicate InCall(q: nat, x: Sys, base: nat, req: Req, head: nat) {
    x.l.book.chains.Keys == {head} && head in x.l.book.bufs && x.l.book.bufs[head] == Chain(base, req)
  }

  ghost predicate SysInv(q: nat, base: nat, x: Sys, first: seq<Sector>) {
    && Inv(q, x.s, x.l) && |x.page| == PageLen
    && match x.pc
       case Idle => Quiet(q, x) && Explained(x.calls, first, x.disk)
       case Polling(req, head, before) =>
         && InCall(q, x, base, req, head) && x.l.owned == [] && Explained(x.calls, first, before)
         && (if x.l.popped == |x.l.done| then Pending(base, x, req, before) else Answered(base, x, req, before))
       case Completed(req, head, before) =>
         && InCall(q, x, base, req, head) && x.l.owned == [head] && Explained(x.calls, first, before)
         && Answered(base, x, req, before)
  }

  datatype Act =
    | Submit(req: Req)
    | Poll
    | Finish
    | DeviceFetch
    | DeviceServe(i: nat, len: nat)

  ghost predicate Next(q: nat, base: nat, x: Sys, a: Act, y: Sys)
    requires Inv(q, x.s, x.l) && |x.page| == PageLen
  {
    match a
    case Submit(req) =>
      && x.pc.Idle? && IsReq(req) && y.page == Prepare(x.page, req) && y.disk == x.disk
      && (if x.s.t.numFree < 3
          then y == x.(page := y.page, calls := x.calls + [Call(req, IoError, x.disk)])
          else Step(q, x.s, x.l, Push(Chain(base, req)), y.s, y.l)
               && y == x.(s := y.s, l := y.l, page := y.page, pc := Polling(req, x.s.t.freeHead as int, x.disk)))
    case Poll =>
      && x.pc.Polling?
      && (if x.l.popped == |x.l.done| then y == x
          else Step(q, x.s, x.l, Pop, y.s, y.l)
               && y == x.(s := y.s, l := y.l, pc := Completed(x.pc.req, x.pc.head, x.pc.before)))
    case Finish =>
      && x.pc.Completed? && |x.l.owned| == 1 && x.l.owned[0] == x.pc.head
      && Step(q, x.s, x.l, Event.Free(0), y.s, y.l)
      && y == x.(s := y.s, l := y.l, pc := Idle, calls := x.calls + [Call(x.pc.req, Verdict(x.page, x.pc.req), x.disk)])
    case DeviceFetch => Step(q, x.s, x.l, Fetch, y.s, y.l) && y == x.(s := y.s, l := y.l)
    case DeviceServe(i, len) =>
      && i < |x.l.held| && Step(q, x.s, x.l, Complete(i, len), y.s, y.l)
      && y == x.(s := y.s, l := y.l, page := y.page, disk := y.disk)
      && var bufs := Walk(x.s.t.desc, x.l.held[i], q);
         Wired(base, x.page, bufs) && Serves(base, x.page, x.disk, bufs, y.page, y.disk)
  }

  /** What read_sector and write_sector make of the page. */
  function Verdict(p: Buf, r: Req): Outcome
    requires |p| == PageLen
  {
    if p[StatusAt] != StatusOk then IoError
    else Done(if r.ReadReq? then p[DataAt..StatusAt] else r.data)
  }

  // ---------------------------------------------------------------- proofs

  lemma ChainPlain(base: nat, r: Req)
    ensures Plain(Chain(base, r)) == Chain(base, r) && |Chain(base, r)| == 3
  {
  }

  lemma Stages(q: nat, x: Sys, head: nat)
    requires Inv(q, x.s, x.l) && x.l.book.chains.Keys == {head}
    ensures (|x.l.pushed| - x.l.taken) + |x.l.held| + (|x.l.done| - x.l.popped) + |x.l.owned| == 1
    ensures x.l.taken <= |x.l.pushed| && x.l.popped <= |x.l.done|
    ensures |x.l.held| == 1 ==> x.l.held == [head]
    ensures |x.l.done| - x.l.popped == 1 ==> x.l.done[x.l.popped].id == head
  {
    hide TableOk, AvailOk, UsedOk, QueueSize;
    Counts(q, x);
    var f := InFlight(x.l);
    assert f == multiset{head};
    assert |f| == 1;
    if |x.l.held| == 1 { assert x.l.held[0] in f; }
    if |x.l.done| - x.l.popped == 1 { assert Ids(x.l.done[x.l.popped..])[0] in f; }
  }

  lemma Counts(q: nat, x: Sys)
    requires Inv(q, x.s, x.l)
    ensures x.l.taken <= |x.l.pushed| && x.l.popped <= |x.l.done|
  {
  }

  /** A successful answer is exactly the request's effect. */
  lemma ServedIsAtomic(base: nat, p: Buf, req: Req, before: seq<Sector>, page: Buf, disk: seq<Sector>)
    requires |p| == PageLen && |page| == PageLen && IsReq(req) && Wired(base, Prepare(p, req), Chain(base, req))
    requires Serves(base, Prepare(p, req), before, Chain(base, req), page, disk)
    ensures Atomic(Call(req, Verdict(page, req), disk), before)
  {
    hide Prepare, U32At, U64At;
    var p1, bufs := Prepare(p, req), Chain(base, req);
    assert bufs[0].addr - base == 0 && bufs[1].addr - base == DataAt && bufs[2].addr - base == StatusAt;
    assert Writable(bufs[1]) <==> req.ReadReq?;
    if page[StatusAt] == StatusOk && req.WriteReq? {
      assert disk[req.sector] == req.data;
      assert disk == before[req.sector := req.data];
    }
  }

  lemma AnswerIsAtomic(base: nat, x: Sys, req: Req, before: seq<Sector>)
    requires |x.page| == PageLen && Answered(base, x, req, before)
    ensures Atomic(Call(req, Verdict(x.page, req), x.disk), before)
  {
    hide Prepare, Serves, Wired, Atomic, Chain;
    var p :| |p| == PageLen && Wired(base, Prepare(p, req), Chain(base, req))
             && Serves(base, Prepare(p, req), before, Chain(base, req), x.page, x.disk);
    ServedIsAtomic(base, p, req, before, x.page, x.disk);
  }

  lemma SubmitInv(q: nat, base: nat, x: Sys, req: Req, y: Sys, first: seq<Sector>)
    requires SysInv(q, base, x, first) && Next(q, base, x, Submit(req), y)
    ensures SysInv(q, base, y, first)
  {
    hide Inv, Prepare, Explained, Step, Chain, PushBook;
    if x.s.t.numFree < 3 {
      ExplainedMore(x.calls, first, x.disk, Call(req, IoError, x.disk));
    } else {
      PushFacts(q, x, base, req, y);
    }
  }

  lemma PushFacts(q: nat, x: Sys, base: nat, req: Req, y: Sys)
    requires Inv(q, x.s, x.l) && Quiet(q, x) && x.s.t.numFree >= 3
             && Step(q, x.s, x.l, Push(Chain(base, req)), y.s, y.l)
    ensures Inv(q, y.s, y.l) && InCall(q, y, base, req, x.s.t.freeHead as int)
    ensures y.l.owned == [] && y.l.popped == |y.l.done|
  {
    hide Inv, TableOk, PushedTable;
    StepInv(q, x.s, x.l, Push(Chain(base, req)), y.s, y.l);
    HeadIsFirst(q, x.s, x.l);
    assert y.l.book.chains.Keys == {x.s.t.freeHead as int};
  }

  lemma HeadIsFirst(q: nat, s: Queue, l: Log)
    requires Inv(q, s, l) && s.t.numFree > 0
    ensures |l.book.free| == s.t.numFree && l.book.free[0] == s.t.freeHead as int
  {
  }

  lemma PollInv(q: nat, base: nat, x: Sys, y: Sys, first: seq<Sector>)
    requires SysInv(q, base, x, first) && Next(q, base, x, Poll, y)
    ensures SysInv(q, base, y, first)
  {
    hide Inv, Explained, Pending, Answered, InCall;
    if x.l.popped != |x.l.done| {
      StepInv(q, x.s, x.l, Pop, y.s, y.l);
      PoppedHead(q, x, base, x.pc.req, x.pc.head, y);
      SameAnswer(base, x, y, x.pc.req, x.pc.before);
    }
  }

  /** The completion popped is that of the request under way. */
  lemma PoppedHead(q: nat, x: Sys, base: nat, req: Req, head: nat, y: Sys)
    requires Inv(q, x.s, x.l) && InCall(q, x, base, req, head) && x.l.owned == [] && Step(q, x.s, x.l, Pop, y.s, y.l)
    ensures y.l.owned == [head] && InCall(q, y, base, req, head)
  {
    hide Inv, Chain;
    Stages(q, x, head);
  }

  lemma SameAnswer(base: nat, x: Sys, y: Sys, req: Req, before: seq<Sector>)
    requires y.page == x.page && y.disk == x.disk
    ensures Answered(base, x, req, before) ==> Answered(base, y, req, before)
    ensures Pending(base, x, req, before) ==> Pending(base, y, req, before)
  {
  }

  lemma FetchSys(q: nat, base: nat, x: Sys, y: Sys, first: seq<Sector>)
    requires SysInv(q, base, x, first) && Next(q, base, x, DeviceFetch, y)
    ensures SysInv(q, base, y, first)
  {
    hide Inv, Prepare, Explained, Chain, Answered, Pending;
    StepInv(q, x.s, x.l, Fetch, y.s, y.l);
    if !x.pc.Idle? { SameAnswer(base, x, y, x.pc.req, x.pc.before); }
  }

  lemma ServeSys(q: nat, base: nat, x: Sys, i: nat, len: nat, y: Sys, first: seq<Sector>)
    requires SysInv(q, base, x, first) && Next(q, base, x, DeviceServe(i, len), y)
    ensures SysInv(q, base, y, first)
  {
    hide Inv, Explained, Chain, Serves, Wired, Drop, Answered, Pending, Walk;
    StepInv(q, x.s, x.l, Complete(i, len), y.s, y.l);
    var head := x.pc.head;
    Stages(q, x, head);
    RequestRead(q, base, x, x.pc.req, head);
    ServeAnswer(base, x, x.pc.req, x.pc.before, y);
    ServedLength(base, x.page, x.disk, Chain(base, x.pc.req), y.page, y.disk);
  }

  lemma ServedLength(base: nat, p: Buf, disk: seq<Sector>, bufs: seq<Buffer>, p2: Buf, disk2: seq<Sector>)
    requires Wired(base, p, bufs) && Serves(base, p, disk, bufs, p2, disk2)
    ensures |p2| == |p| && |disk2| == |disk|
  {
  }

  lemma ServeAnswer(base: nat, x: Sys, req: Req, before: seq<Sector>, y: Sys)
    requires Pending(base, x, req, before) && Wired(base, x.page, Chain(base, req))
    requires Serves(base, x.page, x.disk, Chain(base, req), y.page, y.disk)
    ensures Answered(base, y, req, before)
  {
    hide Prepare, Chain, Serves, Wired;
    var p :| |p| == PageLen && x.page == Prepare(p, req);
    assert Wired(base, Prepare(p, req), Chain(base, req))
           && Serves(base, Prepare(p, req), before, Chain(base, req), y.page, y.disk);
  }

  /** The chain the device walks is the request. */
  lemma RequestRead(q: nat, base: nat, x: Sys, req: Req, head: nat)
    requires Inv(q, x.s, x.l) && InCall(q, x, base, req, head)
    ensures Walk(x.s.t.desc, head, q) == Chain(base, req)
  {
    hide TableOk, AvailOk, UsedOk, Chain, Walk;
    WalkIs(q, x.s.t, x.l.book, head);
    ChainPlain(base, req);
  }

  lemma FinishInv(q: nat, base: nat, x: Sys, y: Sys, first: seq<Sector>)
    requires SysInv(q, base, x, first) && Next(q, base, x, Finish, y)
    ensures SysInv(q, base, y, first)
  {
    hide Inv, Explained, Answered, Atomic, Drop, Step;
    AnswerIsAtomic(base, x, x.pc.req, x.pc.before);
    ExplainedMore(x.calls, first, x.pc.before, Call(x.pc.req, Verdict(x.page, x.pc.req), x.disk));
    FreedQuiet(q, x, y, x.pc.head);
  }

  lemma FreedQuiet(q: nat, x: Sys, y: Sys, head: nat)
    requires Inv(q, x.s, x.l) && x.l.book.chains.Keys == {head} && x.l.owned == [head]
    requires Step(q, x.s, x.l, Event.Free(0), y.s, y.l)
    ensures Inv(q, y.s, y.l) && Quiet(q, y)
  {
    hide Inv, FreedTable;
    StepInv(q, x.s, x.l, Event.Free(0), y.s, y.l);
    Stages(q, x, head);
    assert y.l.book.chains == map[];
    AllFree(q, y.s, y.l);
  }

  /** With no chain in flight every descriptor is free. */
  lemma AllFree(q: nat, s: Queue, l: Log)
    requires Inv(q, s, l) && l.book.chains == map[]
    ensures s.t.numFree == q
  {
    hide ChainOk, AvailOk, UsedOk;
    var free := l.book.free;
    forall d: nat | d < q ensures d in Elements(free) {
      NotHome(q, l.book, d);
    }
    DistinctSize(free);
    CoverSize(Elements(free), q);
    DistinctBound(free, q);
  }

  lemma NotHome(q: nat, b: Book, d: nat)
    requires Partition(q, b) && b.chains == map[] && d < q
    ensures d in b.free
  {
    match b.home[d]
    case None =>
    case Some(h) => HomeChain(q, b, d, h);
  }

  lemma HomeChain(q: nat, b: Book, d: nat, h: nat)
    requires Partition(q, b) && d < q && b.home[d] == Some(h)
    ensures h in b.chains
  {
  }

  lemma NextInv(q: nat, base: nat, x: Sys, a: Act, y: Sys, first: seq<Sector>)
    requires SysInv(q, base, x, first) && Next(q, base, x, a, y)
    ensures SysInv(q, base, y, first)
  {
    hide SysInv, Inv;
    match a
    case Submit(req) => SubmitInv(q, base, x, req, y, first);
    case Poll => PollInv(q, base, x, y, first);
    case Finish => FinishInv(q, base, x, y, first);
    case DeviceFetch => FetchSys(q, base, x, y, first);
    case DeviceServe(i, len) => ServeSys(q, base, x, i, len, y, first);
  }

  /** A fresh queue and an idle driver. */
  lemma StartInv(q: nat, base: nat, x: Sys)
    requires QueueSize(q) && x.s.t == FreshTable(q) && |x.s.avail| == |x.s.used| == q
    requires x.s.availIdx == x.s.usedIdx == x.s.lastUsed == 0 && x.l == FreshLog(q)
    requires |x.page| == PageLen && x.pc == Idle && x.calls == []
    ensures SysInv(q, base, x, x.disk)
  {
    hide Inv;
    FreshInv(q, x.s);
  }

  ghost predicate IsRun(q: nat, base: nat, states: seq<Sys>, acts: seq<Act>, first: seq<Sector>) {
    && |states| == |acts| + 1
    && SysInv(q, base, states[0], first)
    && forall i :: 0 <= i < |acts| ==>
         SysInv(q, base, states[i], first) ==> Next(q, base, states[i], acts[i], states[i + 1])
  }

  /** Over every interleaving of calls and device steps: whenever no call is under way every descriptor is
      free, and all calls that returned behave like calls on a plain disk, one at a time. */
  lemma {:induction false} IoRun(q: nat, base: nat, states: seq<Sys>, acts: seq<Act>, first: seq<Sector>, k: nat)
    requires IsRun(q, base, states, acts, first) && k <= |acts|
    ensures SysInv(q, base, states[k], first)
    ensures states[k].pc.Idle? ==> states[k].s.t.numFree == q && Explained(states[k].calls, first, states[k].disk)
  {
    hide Next, SysInv, Explained, Inv;
    if k > 0 {
      IoRun(q, base, states, acts, first, k - 1);
      NextInv(q, base, states[k - 1], acts[k - 1], states[k], first);
    }
    WhenIdle(q, base, states[k], first);
  }

  lemma WhenIdle(q: nat, base: nat, x: Sys, first: seq<Sector>)
    requires SysInv(q, base, x, first)
    ensures x.pc.Idle? ==> x.s.t.numFree == q && Explained(x.calls, first, x.disk)
  {
    hide Inv, Explained, Pending, Answered;
  }
}
