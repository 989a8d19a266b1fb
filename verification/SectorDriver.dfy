/** read_sector and write_sector as they run (drivers/src/virtio.rs:439-585): the DMA page and the
    queue are shared with the device, which acts between two polls as a schedule says. */
module SectorDriver {
  import opened Bytes
  import opened VirtqueueModel
  import opened VirtqueueDriver
  import opened SectorIo

  /** What the device does between two polls. A failing request reports `status` and may leave `junk`
      in the buffer of a read or the sector of a write. */
  datatype Env = Wait | FetchNext | Answer(len: nat, status: u8, junk: Sector)

  /** The device's part of a request: the page and disk it leaves. */
  function Serve(base: nat, p: Buf, disk: seq<Sector>, bufs: seq<Buffer>, status: u8,
      junk: Sector): (r: (Buf, seq<Sector>))
    requires Wired(base, p, bufs)
  {
    var hdr, data, st := bufs[0].addr - base, bufs[1].addr - base, bufs[2].addr - base;
    var kind, sector := U32At(p, hdr), U64At(p, hdr + 8);
    var ok := status == StatusOk && sector < |disk| && Directed(kind, bufs);
    var p1 := if kind == TypeIn && Writable(bufs[1]) then Splice(p, data, if ok then disk[sector] else junk) else p;
    var told := if ok then StatusOk else if status == StatusOk then 1 else status;
    var p2 := if Writable(bufs[2]) then p1[st := told] else p1;
    (p2, if kind == TypeOut && sector < |disk| then disk[sector := if ok then p[data..data + 512] else junk] else disk)
  }

  lemma ServeConforms(base: nat, p: Buf, disk: seq<Sector>, req: Req, status: u8, junk: Sector)
    requires Wired(base, p, Chain(base, req))
    ensures var r := Serve(base, p, disk, Chain(base, req), status, junk);
            Serves(base, p, disk, Chain(base, req), r.0, r.1)
  {
    hide U32At, U64At;
  }

  /** The status a request gets: good exactly when the device says so and the sector is on the disk. */
  lemma ServedStatus(base: nat, p: Buf, disk: seq<Sector>, req: Req, status: u8, junk: Sector)
    requires Wired(base, p, Chain(base, req)) && |p| == PageLen && Holding(p, req)
    ensures var page := Serve(base, p, disk, Chain(base, req), status, junk).0;
            |page| == PageLen && (page[StatusAt] == StatusOk <==> status == StatusOk && req.sector < |disk|)
  {
    hide U32At, U64At;
    assert Directed(U32At(p, 0), Chain(base, req));
  }

  /** The page holds the header of a request. */
  ghost predicate Holding(p: Buf, req: Req)
    requires |p| == PageLen
  {
    U32At(p, 0) == (if req.ReadReq? then TypeIn else TypeOut) && U64At(p, 8) == req.sector
  }

  /** How far the request under way is: not fetched yet, in the device's hands, or answered. */
  datatype Stage = Offered | InHand | Served

  ghost function StageOf(l: Log): Stage {
    if l.popped < |l.done| then Served else if l.held != [] then InHand else Offered
  }

  /** The device's turn moves the request on. */
  function Moved(g: Stage, e: Env): Stage {
    if g.Offered? && e.FetchNext? then InHand else if g.InHand? && e.Answer? then Served else g
  }

  /** After the first `k` turns. */
  function Progress(sched: seq<Env>, k: nat): Stage
    requires k <= |sched|
  {
    if k == 0 then Offered else Moved(Progress(sched, k - 1), sched[k - 1])
  }

  /** One of the first `k` turns fetches and a later one answers. */
  ghost predicate Answers(sched: seq<Env>, k: nat)
    requires k <= |sched|
  {
    exists i, j :: 0 <= i < j < k && sched[i].FetchNext? && sched[j].Answer?
  }

  ghost predicate Replies(sched: seq<Env>) { sched != [] && Answers(sched, |sched| - 1) }

  /** A request is answered after `k` turns exactly when one of them fetches and a later one answers. */
  lemma {:induction false} ProgressIff(sched: seq<Env>, k: nat)
    requires k <= |sched|
    ensures Progress(sched, k).Offered? <==> forall i :: 0 <= i < k ==> !sched[i].FetchNext?
    ensures Progress(sched, k).Served? <==> Answers(sched, k)
  {
    if k > 0 {
      ProgressIff(sched, k - 1);
      var last := sched[k - 1];
      if Progress(sched, k - 1).InHand? && last.Answer? {
        var i :| 0 <= i < k - 1 && sched[i].FetchNext?;
        assert 0 <= i < k - 1 < k && sched[i].FetchNext? && sched[k - 1].Answer?;
      }
    }
  }

  ghost predicate FirstFetch(sched: seq<Env>, i: nat) {
    i < |sched| && sched[i].FetchNext? && forall k :: 0 <= k < i ==> !sched[k].FetchNext?
  }

  /** Turn `i` is the first that fetches and turn `j` the first after it that answers, with one more poll to come. */
  ghost predicate AnsweredBy(sched: seq<Env>, i: nat, j: nat) {
    && FirstFetch(sched, i) && i < j < |sched| - 1 && sched[j].Answer?
    && forall k :: i < k < j ==> !sched[k].Answer?
  }

  /** The answer that completes the request reports success, for a sector of the disk. */
  ghost predicate Succeeds(sched: seq<Env>, sector: nat, sectors: nat) {
    sector < sectors && exists i: nat, j: nat :: AnsweredBy(sched, i, j) && sched[j].status == StatusOk
  }

  /** A schedule replies exactly when some answer completes the request, and there is only one such answer. */
  lemma AnsweredOnce(sched: seq<Env>, j: nat)
    requires j + 1 < |sched| && Answers(sched, j + 1) && !Answers(sched, j)
    ensures exists i: nat :: AnsweredBy(sched, i, j)
    ensures forall i: nat, k: nat :: AnsweredBy(sched, i, k) ==> k == j
  {
    ProgressIff(sched, j + 1);
    ProgressIff(sched, j);
    Fetched(sched, j);
    var i :| 0 <= i < j && FirstFetch(sched, i);
    forall m | i < m < j ensures !sched[m].Answer? {
      assert !(0 <= i < m < j && sched[i].FetchNext? && sched[m].Answer?);
    }
    assert AnsweredBy(sched, i, j);
  }

  lemma {:induction false} Fetched(sched: seq<Env>, k: nat)
    requires k <= |sched| && !Progress(sched, k).Offered?
    ensures exists i: nat :: i < k && FirstFetch(sched, i)
  {
    ProgressIff(sched, k - 1);
    if Progress(sched, k - 1).Offered? {
      assert FirstFetch(sched, k - 1);
    } else {
      Fetched(sched, k - 1);
    }
  }

  lemma OutcomeKnown(sched: seq<Env>, k: nat, sector: nat, sectors: nat)
    requires 0 < k < |sched| && sched[k - 1].Answer? && Answers(sched, k) && !Answers(sched, k - 1)
    ensures Succeeds(sched, sector, sectors) <==> sched[k - 1].status == StatusOk && sector < sectors
  {
    AnsweredOnce(sched, k - 1);
  }

  lemma NoOutcome(sched: seq<Env>, sector: nat, sectors: nat)
    ensures Succeeds(sched, sector, sectors) ==> Replies(sched)
  {
  }

  class VirtioBlock {
    const vq: Virtqueue
    const base: nat
    const page: array<u8>
    const disk: array<Sector>
    var inHand: seq<nat>
    ghost var pc: Pc
    ghost var calls: seq<Call>

    ghost function St(): Sys
      reads this, vq, vq.desc, vq.avail, vq.used, page, disk
    {
      Sys(vq.State(), vq.log, page[..], disk[..], pc, calls)
    }

    ghost predicate Valid(first: seq<Sector>)
      reads this, vq, vq.desc, vq.avail, vq.used, page, disk
    {
      && (page as object) != (vq.avail as object)
      && vq.Valid() && inHand == vq.log.held && SysInv(vq.q, base, St(), first)
    }

    constructor (queueSize: nat, base: nat, disk: array<Sector>)
      requires QueueSize(queueSize)
      ensures Valid(disk[..]) && pc == Idle && this.disk == disk && vq.q == queueSize
    {
      hide Inv, SysInv, FreshTable;
      var queue := new Virtqueue.Allocate(queueSize);
      vq := queue;
      this.base := base;
      page := new u8[PageLen](_ => 0);
      this.disk := disk;
      inHand := [];
      pc, calls := Idle, [];
      new;
      StartInv(vq.q, base, St());
    }

    /** Both calls up to push_chain: fill the page, submit the three buffers. */
    method SubmitRequest(req: Req, ghost first: seq<Sector>) returns (head: Option<u16>)
      requires Valid(first) && pc.Idle? && IsReq(req)
      modifies this, vq, vq.desc, vq.avail, page
      ensures Valid(first) && disk[..] == old(disk[..])
      ensures head.None? <==> vq.q < 3
      ensures head.None? ==> pc.Idle?
      ensures head.Some? ==> pc == Polling(req, head.value as int, disk[..]) && StageOf(vq.log).Offered?
    {
      hide Inv, SysInv, Prepare, Step;
      ghost var x := St();
      Sizes(vq.q, base, x, first);
      var p := Prepare(page[..], req);
      forall i | 0 <= i < page.Length { page[i] := p[i]; }
      assert page[..] == p;
      head := vq.PushChain(Chain(base, req));
      if head.None? {
        calls := calls + [Call(req, IoError, disk[..])];
      } else {
        pc := Polling(req, head.value as int, disk[..]);
      }
      assert x.s.t.numFree < 3 <==> head.None?;
      assert disk[..] == x.disk;
      assert head.None? ==> St() == x.(page := St().page, calls := x.calls + [Call(req, IoError, x.disk)]);
      assert head.Some? ==>
             St() == x.(s := St().s, l := St().l, page := St().page, pc := Polling(req, x.s.t.freeHead as int, x.disk));
      NextInv(vq.q, base, x, Act.Submit(req), St(), first);
    }

    /** One turn of the polling loop. */
    method PollOnce(ghost first: seq<Sector>) returns (done: bool)
      requires Valid(first) && pc.Polling?
      modifies this, vq
      ensures Valid(first) && disk[..] == old(disk[..]) && calls == old(calls) && inHand == old(inHand)
      ensures done <==> old(StageOf(vq.log)).Served?
      ensures if done then pc == Completed(old(pc).req, old(pc).head, old(pc).before)
              else pc == old(pc) && vq.log == old(vq.log)
    {
      hide Inv, SysInv, Step;
      ghost var x := St();
      Sizes(vq.q, base, x, first);
      Counts(vq.q, x);
      var e := vq.PopUsed();
      done := e.Some?;
      if done { pc := Completed(pc.req, pc.head, pc.before); }
      assert done ==> St() == x.(s := St().s, l := St().l, pc := pc);
      NextInv(vq.q, base, x, Poll, St(), first);
    }

    /** The device's turn. */
    method DeviceTurn(e: Env, ghost first: seq<Sector>)
      requires Valid(first) && pc.Polling?
      modifies this`inHand, vq, vq.used, page, disk
      ensures Valid(first) && StageOf(vq.log) == Moved(old(StageOf(vq.log)), e)
      ensures old(StageOf(vq.log)).InHand? && e.Answer? ==> Reported(e.status)
    {
      hide Inv, SysInv;
      InStages(vq.q, base, St(), first);
      match e
      case Wait =>
      case FetchNext => TakeRequest(first);
      case Answer(len, status, junk) =>
        if inHand != [] { AnswerRequest(len, status, junk, first); }
    }

    method TakeRequest(ghost first: seq<Sector>)
      requires Valid(first) && pc.Polling?
      modifies this`inHand, vq
      ensures Valid(first) && StageOf(vq.log) == Moved(old(StageOf(vq.log)), FetchNext)
    {
      hide Inv, SysInv, Step;
      ghost var x := St();
      Sizes(vq.q, base, x, first);
      InStages(vq.q, base, x, first);
      FetchReads(vq.q, x.s, x.l);
      Counts(vq.q, x);
      if vq.availIdx != vq.deviceIdx {
        var head := vq.DeviceFetch();
        inHand := inHand + [head as int];
        FetchedHeld(vq.q, x.s, x.l, St().s, St().l);
        NextInv(vq.q, base, x, Act.DeviceFetch, St(), first);
      }
    }

    /** The page says whether the request under way succeeded, given the status of its answer. */
    ghost predicate Reported(status: u8)
      reads this, page
    {
      pc.Polling? && page.Length == PageLen && (page[StatusAt] == StatusOk <==>
          status == StatusOk && pc.req.sector < disk.Length)
    }

    method AnswerRequest(len: nat, status: u8, junk: Sector, ghost first: seq<Sector>)
      requires Valid(first) && pc.Polling? && inHand != []
      modifies this`inHand, vq, vq.used, page, disk
      ensures Valid(first) && StageOf(vq.log).Served? && Reported(status)
    {
      hide Inv, SysInv, Step, Walk, Serve, Serves, Chain, Wired, Holding;
      ghost var x := St();
      Sizes(vq.q, base, x, first);
      Conforming(vq.q, base, x, first);
      var bufs := Walk(vq.desc[..], inHand[0], vq.q);
      var r := Serve(base, page[..], disk[..], bufs, status, junk);
      ServeConforms(base, page[..], disk[..], pc.req, status, junk);
      ServedStatus(base, page[..], disk[..], pc.req, status, junk);
      ServedLength(base, page[..], disk[..], bufs, r.0, r.1);
      forall i | 0 <= i < page.Length { page[i] := r.0[i]; }
      forall i | 0 <= i < disk.Length { disk[i] := r.1[i]; }
      assert page[..] == r.0 && disk[..] == r.1;
      vq.DeviceComplete(inHand[0], len, 0);
      inHand := inHand[1..];
      CompletedHeld(vq.q, x.s, x.l, len, St().s, St().l);
      Counts(vq.q, x);
      NextInv(vq.q, base, x, DeviceServe(0, len), St(), first);
    }

    /** The end of both calls: look at the status, free the chain. */
    method FinishRequest(req: Req, head: nat, ghost first: seq<Sector>) returns (out: Outcome)
      requires Valid(first) && pc.Completed? && pc.req == req && pc.head == head
      modifies this, vq, vq.desc
      ensures Valid(first) && pc.Idle? && vq.numFree == vq.q && disk[..] == old(disk[..])
      ensures Atomic(Call(req, out, disk[..]), old(pc).before)
      ensures page.Length == PageLen && (out.Done? <==> page[StatusAt] == StatusOk)
    {
      hide Inv, SysInv, Step, Atomic;
      ghost var x := St();
      Sizes(vq.q, base, x, first);
      AtTheEnd(vq.q, base, x, first);
      out := Verdict(page[..], req);
      vq.FreeChain(head, 0);
      pc, calls := Idle, calls + [Call(req, out, disk[..])];
      assert disk[..] == x.disk;
      assert St() == x.(s := St().s, l := St().l, pc := Idle, calls := calls);
      NextInv(vq.q, base, x, Finish, St(), first);
      FreedHeld(vq.q, x.s, x.l, St().s, St().l);
      Sizes(vq.q, base, St(), first);
    }

    /** A whole call. It returns exactly when the queue is too short for a request or the device fetches, answers and
        is polled once more before the schedule ends. */
    method Transfer(req: Req, sched: seq<Env>, ghost first: seq<Sector>) returns (out: Option<Outcome>)
      requires Valid(first) && pc.Idle? && IsReq(req)
      modifies this, vq, vq.desc, vq.avail, vq.used, page, disk
      ensures Valid(first)
      ensures out.Some? ==> pc.Idle? && vq.numFree == vq.q && Atomic(Call(req, out.value, disk[..]), old(disk[..]))
      ensures vq.q < 3 ==> out == Some(IoError)
      ensures out.Some? <==> vq.q < 3 || Replies(sched)
      ensures out.Some? && out.value.Done? <==> vq.q >= 3 && Succeeds(sched, req.sector, disk.Length)
    {
      hide Inv, SysInv, Step, Succeeds;
      ghost var before := disk[..];
      var head := SubmitRequest(req, first);
      if head.None? {
        Sizes(vq.q, base, St(), first);
        return Some(IoError);
      }
      var k := 0;
      while k < |sched|
        invariant 0 <= k <= |sched| && Valid(first) && pc == Polling(req, head.value as int, before)
        invariant StageOf(vq.log) == Progress(sched, k) && (k > 0 ==> !Answers(sched, k - 1))
        invariant StageOf(vq.log).Served? ==> k > 0 && sched[k - 1].Answer? && Reported(sched[k - 1].status)
      {
        ProgressIff(sched, k);
        var done := PollOnce(first);
        if done {
          OutcomeKnown(sched, k, req.sector, disk.Length);
          var o := FinishRequest(req, head.value as int, first);
          return Some(o);
        }
        DeviceTurn(sched[k], first);
        k := k + 1;
      }
      ProgressIff(sched, k);
      NoOutcome(sched, req.sector, disk.Length);
      out := None;
    }

    /** read_sector: on success the caller's buffer holds the sector and the disk is unchanged. */
    method ReadSector(sector: nat, buf: array<u8>, sched: seq<Env>, ghost first: seq<Sector>) returns (r: Option<bool>)
      requires Valid(first) && pc.Idle? && sector < 0x1_0000_0000_0000_0000 && buf.Length == 512 && buf != page
      modifies this, vq, vq.desc, vq.avail, vq.used, page, disk, buf
      ensures Valid(first) && (r.Some? ==> pc.Idle? && vq.numFree == vq.q && disk[..] == old(disk[..]))
      ensures r == Some(true) ==> sector < disk.Length && buf[..] == old(disk[..])[sector]
      ensures r != Some(true) ==> buf[..] == old(buf[..])
      ensures r.Some? <==> vq.q < 3 || Replies(sched)
      ensures r == Some(true) <==> vq.q >= 3 && Succeeds(sched, sector, disk.Length)
    {
      hide Inv, SysInv, Succeeds;
      var out := Transfer(ReadReq(sector), sched, first);
      if out.None? { return None; }
      if out.value.IoError? { return Some(false); }
      var data := out.value.data;
      forall i | 0 <= i < 512 { buf[i] := data[i]; }
      r := Some(true);
    }

    /** write_sector: on success exactly that sector changed. */
    method WriteSector(sector: nat, data: Sector, sched: seq<Env>, ghost first: seq<Sector>) returns (r: Option<bool>)
      requires Valid(first) && pc.Idle? && sector < 0x1_0000_0000_0000_0000
      modifies this, vq, vq.desc, vq.avail, vq.used, page, disk
      ensures Valid(first) && (r.Some? ==> pc.Idle? && vq.numFree == vq.q)
      ensures r == Some(true) ==> sector < |old(disk[..])| && disk[..] == old(disk[..])[sector := data]
      ensures r.Some? <==> vq.q < 3 || Replies(sched)
      ensures r == Some(true) <==> vq.q >= 3 && Succeeds(sched, sector, disk.Length)
      ensures r == Some(false) ==> forall s :: 0 <= s < disk.Length && s != sector ==> disk[s] == old(disk[..])[s]
    {
      hide Inv, SysInv, Succeeds;
      var out := Transfer(WriteReq(sector, data), sched, first);
      if out.None? { return None; }
      r := Some(out.value.Done?);
    }
  }

  /** A request the device has in hand is the one being polled for. */
  lemma Conforming(q: nat, base: nat, x: Sys, first: seq<Sector>)
    requires SysInv(q, base, x, first) && x.pc.Polling? && x.l.held != []
    ensures Walk(x.s.t.desc, x.l.held[0], q) == Chain(base, x.pc.req) && Wired(base, x.page, Chain(base, x.pc.req))
    ensures |x.page| == PageLen && Holding(x.page, x.pc.req)
  {
    hide Inv, Explained, Answered, Walk, Prepare, U32At, U64At;
    Stages(q, x, x.pc.head);
    RequestRead(q, base, x, x.pc.req, x.pc.head);
  }

  /** While a call polls, the one request is in one of the three stages. */
  lemma InStages(q: nat, base: nat, x: Sys, first: seq<Sector>)
    requires SysInv(q, base, x, first) && x.pc.Polling?
    ensures StageOf(x.l).Served? ==> x.l.held == []
    ensures x.l.taken < |x.l.pushed| <==> StageOf(x.l).Offered?
  {
    hide Inv, Explained, Pending, Answered;
    Stages(q, x, x.pc.head);
  }

  lemma FetchedHeld(q: nat, s: Queue, l: Log, s2: Queue, l2: Log)
    requires Inv(q, s, l) && Step(q, s, l, Fetch, s2, l2)
    ensures l2.held == l.held + [l.pushed[l.taken]] && l2.popped == l.popped && l2.done == l.done
  {
    hide Inv;
  }

  lemma CompletedHeld(q: nat, s: Queue, l: Log, len: nat, s2: Queue, l2: Log)
    requires Inv(q, s, l) && Step(q, s, l, Complete(0, len), s2, l2)
    ensures l2.held == l.held[1..] && l2.popped == l.popped && |l2.done| == |l.done| + 1
  {
    hide Inv;
  }

  lemma AtTheEnd(q: nat, base: nat, x: Sys, first: seq<Sector>)
    requires SysInv(q, base, x, first) && x.pc.Completed?
    ensures x.l.owned == [x.pc.head] && |x.page| == PageLen
    ensures Atomic(Call(x.pc.req, Verdict(x.page, x.pc.req), x.disk), x.pc.before)
  {
    hide Inv, Explained, Answered, Atomic;
    AnswerIsAtomic(base, x, x.pc.req, x.pc.before);
  }

  lemma FreedHeld(q: nat, s: Queue, l: Log, s2: Queue, l2: Log)
    requires Inv(q, s, l) && Step(q, s, l, Event.Free(0), s2, l2)
    ensures l2.held == l.held && l2.taken == l.taken
  {
    hide Inv;
  }

  lemma Sizes(q: nat, base: nat, x: Sys, first: seq<Sector>)
    requires SysInv(q, base, x, first)
    ensures Inv(q, x.s, x.l) && |x.page| == PageLen
    ensures x.pc.Idle? ==> x.s.t.numFree == q && StageOf(x.l).Offered?
  {
    hide Inv, Explained, Pending, Answered;
  }
}
