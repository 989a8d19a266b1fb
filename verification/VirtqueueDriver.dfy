/** The virtqueue as the driver holds it: descriptor table and rings in shared arrays, updated in place
    (drivers/src/virtqueue.rs:135-297). The device's accesses are methods of the environment. */
module VirtqueueDriver {
  import opened Arith
  import opened Bytes
  import opened Sequences
  import opened VirtqueueModel

  class Virtqueue {
    const q: nat
    const desc: array<Desc>
    const avail: array<u16>
    const used: array<UsedElem>
    var availIdx: u16
    var usedIdx: u16
    var freeHead: u16
    var numFree: nat
    var lastUsed: u16
    var deviceIdx: u16
    ghost var log: Log

    ghost function State(): Queue
      reads this, desc, avail, used
    {
      Queue(Table(desc[..], freeHead, numFree), avail[..], availIdx, used[..], usedIdx, lastUsed)
    }

    ghost predicate Valid()
      reads this, desc, avail, used
    {
      Inv(q, State(), log) && deviceIdx as int == log.taken % 0x1_0000
    }

    /** Virtqueue::allocate on zeroed pages. */
    constructor Allocate(queueSize: nat)
      requires QueueSize(queueSize)
      ensures Valid() && q == queueSize && numFree == q && log == FreshLog(q)
      ensures State().t == FreshTable(q) && |State().avail| == |State().used| == q
      ensures availIdx == usedIdx == lastUsed == 0
      ensures fresh(desc) && fresh(avail) && fresh(used)
    {
      q := queueSize;
      desc := new Desc[queueSize](_ => Desc(0, 0, 0, 0));
      avail := new u16[queueSize](_ => 0);
      used := new UsedElem[queueSize](_ => UsedElem(0, 0));
      availIdx, usedIdx, lastUsed, deviceIdx := 0, 0, 0, 0;
      freeHead, numFree := 0, queueSize;
      log := FreshLog(queueSize);
      new;
      InitTable();
      FreshInv(q, State());
    }

    /** The loop of allocate. */
    method InitTable()
      requires desc.Length == q <= 256 && forall j :: 0 <= j < q ==> desc[j] == Desc(0, 0, 0, 0)
      modifies desc
      ensures desc[..] == FreshTable(q).desc
    {
      var i := 0;
      while i < q
        invariant 0 <= i <= q
        invariant forall j :: 0 <= j < i ==> desc[j] == FreshTable(q).desc[j]
        invariant forall j :: i <= j < q ==> desc[j] == Desc(0, 0, 0, 0)
      {
        desc[i] := desc[i].(next := if i + 1 < q then i + 1 else 0, flags := 0);
        i := i + 1;
      }
    }

    /** push_chain: fills descriptors taken from the free list, then publishes the head. */
    method PushChain(bufs: seq<Buffer>) returns (r: Option<u16>)
      requires Valid() && |bufs| < 0x1_0000
      modifies this, desc, avail
      ensures Valid()
      ensures r.None? <==> bufs == [] || old(numFree) < |bufs|
      ensures r.None? ==> State() == old(State()) && log == old(log)
      ensures r.Some? ==> r.value == old(freeHead) && log == PushLog(old(log), bufs)
      ensures r.Some? ==> Step(q, old(State()), old(log), Push(bufs), State(), log)
    {
      hide Inv, PushedTable, FreeList, NoDup, Slot, PushBook;
      if bufs == [] || numFree < |bufs| { return None; }
      ghost var s0, l0 := State(), log;
      var head := freeHead;
      PushReady(q, s0, l0);
      FillChain(bufs, l0.book.free);
      avail[Slot(q, availIdx as int)] := head;
      availIdx := (availIdx as int + 1) % 0x1_0000;
      log := PushLog(log, bufs);
      PushInv(q, s0, l0, bufs, State().t);
      r := Some(head);
    }

    /** The loop of push_chain. */
    method FillChain(bufs: seq<Buffer>, ghost free: seq<nat>)
      requires FreeList(Table(desc[..], freeHead, numFree), free) && NoDup(free) && 0 < |bufs| <= numFree
      modifies this`freeHead, this`numFree, desc
      ensures PushedTable(old(Table(desc[..], freeHead, numFree)), free[..|bufs|], bufs,
              Table(desc[..], freeHead, numFree))
    {
      hide Filled, NoDup;
      ghost var t, c := Table(desc[..], freeHead, numFree), free[..|bufs|];
      var idx := freeHead as int;
      var i := 0;
      while i < |bufs|
        invariant 0 <= i <= |bufs| && numFree == t.numFree - i
        invariant i < |bufs| ==> idx == free[i]
        invariant i == |bufs| ==> freeHead == t.desc[free[i - 1]].next
        invariant forall j :: 0 <= j < i ==> desc[free[j]] == Filled(bufs[j], j == |bufs| - 1, t.desc[free[j]].next)
        invariant forall d :: 0 <= d < desc.Length && d !in free[..i] ==> desc[d] == t.desc[d]
      {
        var last := i == |bufs| - 1;
        var next := desc[idx].next;
        NotBefore(free, i);
        desc[idx] := Filled(bufs[i], last, next);
        if !last {
          assert t.desc[free[i]].next as int == free[i + 1];
          idx := next as int;
        } else {
          freeHead := next;
        }
        numFree := numFree - 1;
        i := i + 1;
      }
    }

    /** pop_used. */
    method PopUsed() returns (r: Option<UsedElem>)
      requires Valid()
      modifies this`lastUsed, this`log
      ensures Valid()
      ensures r.None? <==> old(log).popped == |old(log).done|
      ensures r.None? ==> State() == old(State()) && log == old(log)
      ensures r.Some? ==> r.value == old(log).done[old(log).popped] && log == PopLog(old(log))
      ensures r.Some? ==> Step(q, old(State()), old(log), Pop, State(), log)
    {
      hide Inv, FreeList, NoDup, Slot;
      PushReady(q, State(), log);
      PopReads(q, State(), log);
      if lastUsed == usedIdx { return None; }
      r := Some(used[Slot(q, lastUsed as int)]);
      PopInv(q, State(), log);
      lastUsed := (lastUsed as int + 1) % 0x1_0000;
      log := PopLog(log);
    }

    /** free_chain on the head of a popped chain: walks NEXT, pushing each descriptor on the free list. */
    method FreeChain(head: nat, ghost i: nat)
      requires Valid() && i < |log.owned| && log.owned[i] == head
      modifies this, desc
      ensures Valid() && head in old(log).book.chains && log == FreeLog(old(log), i)
      ensures Step(q, old(State()), old(log), Event.Free(i), State(), log)
    {
      hide Inv, ChainOk, NoDup, FreedTable, FreeBook, Drop;
      OwnedInFlight(q, State(), log, i);
      ghost var s0, l0 := State(), log;
      FreeReady(q, s0, l0, head);
      ReturnChain(head, l0.book.chains[head], l0.book.bufs[head]);
      log := FreeLog(log, i);
      FreeInv(q, s0, l0, i, State().t);
    }

    /** The loop of free_chain. */
    method ReturnChain(head: nat, ghost c: seq<nat>, ghost bufs: seq<Buffer>)
      requires ChainOk(desc[..], c, bufs) && NoDup(c) && head == c[0] && |desc[..]| <= 256
      modifies this`freeHead, this`numFree, desc
      ensures FreedTable(old(Table(desc[..], freeHead, numFree)), c, Table(desc[..], freeHead, numFree))
    {
      hide ChainOk, NoDup;
      ghost var t := Table(desc[..], freeHead, numFree);
      Inside(t.desc, c, bufs);
      var idx := head;
      ghost var i := 0;
      var more := true;
      while more
        invariant 0 <= i <= |c| && numFree == t.numFree + i && (more <==> i < |c|)
        invariant more ==> idx == c[i]
        invariant freeHead as int == if i == 0 then t.freeHead as int else c[i - 1]
        invariant forall j {:trigger Before(c, j, t.freeHead)} :: 0 <= j < i ==>
                  desc[c[j]].next as int == Before(c, j, t.freeHead)
        invariant forall d :: 0 <= d < desc.Length && d !in c[..i] ==> desc[d] == t.desc[d]
        decreases |c| - i
      {
        NotBefore(c, i);
        var flags, next := desc[idx].flags, desc[idx].next;
        LinkOf(t.desc, c, bufs, i);
        desc[idx] := desc[idx].(next := freeHead, flags := 0);
        freeHead := idx;
        numFree := numFree + 1;
        if HasNext(flags) {
          idx := next as int;
        } else {
          more := false;
        }
        i := i + 1;
      }
    }

    /** Environment: the device fetches the next available chain. */
    method DeviceFetch() returns (head: u16)
      requires Valid() && log.taken < |log.pushed|
      modifies this`log, this`deviceIdx
      ensures Valid() && head as int == old(log).pushed[old(log).taken]
      ensures Step(q, old(State()), old(log), Fetch, State(), log)
    {
      hide Inv, FreeList, NoDup, Slot;
      PushReady(q, State(), log);
      FetchInv(q, State(), log);
      head := avail[Slot(q, deviceIdx as int)];
      deviceIdx := (deviceIdx as int + 1) % 0x1_0000;
      log := FetchLog(log);
    }

    /** Environment: the device returns a chain it fetched, having written `len` bytes. */
    method DeviceComplete(head: nat, len: nat, ghost i: nat)
      requires Valid() && i < |log.held| && log.held[i] == head
      modifies this`log, this`usedIdx, used
      ensures Valid() && Step(q, old(State()), old(log), Complete(i, len), State(), log)
    {
      hide Inv, FreeList, NoDup, Slot, Drop;
      PushReady(q, State(), log);
      CompleteInv(q, State(), log, i, len);
      used[Slot(q, usedIdx as int)] := UsedElem(head, len);
      usedIdx := (usedIdx as int + 1) % 0x1_0000;
      log := CompleteLog(log, i, len);
    }
  }

  lemma PushReady(q: nat, s: Queue, l: Log)
    requires Inv(q, s, l)
    ensures |s.t.desc| == |s.avail| == |s.used| == q && q > 0 && |l.book.free| == s.t.numFree
    ensures FreeList(s.t, l.book.free) && NoDup(l.book.free) && l.popped <= |l.done|
  {
  }

  lemma FreeReady(q: nat, s: Queue, l: Log, h: nat)
    requires Inv(q, s, l) && h in l.book.chains
    ensures |s.t.desc| == q <= 256 && h in l.book.bufs
    ensures ChainOk(s.t.desc, l.book.chains[h], l.book.bufs[h]) && NoDup(l.book.chains[h]) && l.book.chains[h][0] == h
  {
  }

  lemma Inside(desc: seq<Desc>, c: seq<nat>, bufs: seq<Buffer>)
    requires ChainOk(desc, c, bufs)
    ensures |c| > 0 && forall i :: 0 <= i < |c| ==> c[i] < |desc|
  {
  }

  lemma LinkOf(desc: seq<Desc>, c: seq<nat>, bufs: seq<Buffer>, i: nat)
    requires ChainOk(desc, c, bufs) && i < |c|
    ensures c[i] < |desc| && (HasNext(desc[c[i]].flags) <==> i + 1 < |c|)
    ensures i + 1 < |c| ==> desc[c[i]].next as int == c[i + 1]
  {
    assert desc[c[i]] == Filled(bufs[i], i == |c| - 1, desc[c[i]].next);
  }
}
