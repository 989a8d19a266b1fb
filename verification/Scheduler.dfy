/** The run queue, blocking, and message ports (task/src/scheduler.rs, task/src/lib.rs:626-757,
    ipc/src/lib.rs:57-152) as steps on a single CPU with interrupts off inside each step. */
module Scheduler {
  import opened Bytes
  import opened Sequences

  type Tid = nat
  type Pid = nat

  datatype TaskState = Ready | Running | Blocked | Zombie

  /** `boot` is the placeholder that has no kernel stack and is never queued again. */
  datatype RunQueue = RunQueue(queue: seq<Tid>, current: Option<Tid>, zombies: seq<Tid>, state: map<Tid, TaskState>,
      boot: Tid)

  // ---------------------------------------------------------------- scheduler.rs and task/src/lib.rs

  function Enqueue(r: RunQueue, t: Tid): RunQueue {
    r.(queue := r.queue + [t], state := r.state[t := Ready])
  }

  /** pick_next_task: the front of the queue starts running. */
  function PickNext(r: RunQueue): (RunQueue, Option<Tid>) {
    if r.queue == [] then (r, None)
    else (r.(queue := r.queue[1..], current := Some(r.queue[0]), state := r.state[r.queue[0] := Running]),
        Some(r.queue[0]))
  }

  /** reschedule_current. */
  function Reschedule(r: RunQueue): RunQueue {
    match r.current
    case None => r
    case Some(t) => if t == r.boot then r.(current := None) else Enqueue(r.(current := None), t)
  }

  /** schedule: back of the queue for the current task, front of it for the next. */
  function Schedule(r: RunQueue): RunQueue { PickNext(Reschedule(r)).0 }

  /** block_current_and_switch; without another runnable task the blocked one is put back as current. */
  function Block(r: RunQueue): RunQueue {
    match r.current
    case None => r
    case Some(t) =>
      var r1 := r.(current := None, state := r.state[t := Blocked]);
      var (r2, next) := PickNext(r1);
      if next.None? then r2.(current := Some(t)) else r2
  }

  /** SYS_EXIT: the current task becomes a zombie and the next one runs. */
  function Exit(r: RunQueue): RunQueue {
    match r.current
    case None => r
    case Some(t) => PickNext(r.(current := None, zombies := r.zombies + [t], state := r.state[t := Zombie])).0
  }

  /** find_zombie_child removes the zombie it found. */
  function Reap(r: RunQueue, i: nat): RunQueue
    requires i < |r.zombies|
  {
    r.(zombies := r.zombies[..i] + r.zombies[i + 1..])
  }

  // ---------------------------------------------------------------- ports

  const PortQueueLen: nat := 32

  /** Messages in order, tasks blocked on the port in order, and the tasks a send has woken that have not
      looked at the queue again yet. */
  datatype Port = Port(msgs: seq<nat>, waits: seq<Tid>, woken: set<Tid>)

  datatype Sys = Sys(rq: RunQueue, ports: map<Pid, Port>)

  /** Port::send. */
  function Send(s: Sys, p: Pid, m: nat): (Sys, bool)
    requires p in s.ports
  {
    var port := s.ports[p];
    if |port.msgs| >= PortQueueLen then (s, false)
    else if port.waits == [] then (s.(ports := s.ports[p := port.(msgs := port.msgs + [m])]), true)
    else
      var t := port.waits[0];
      (Sys(Enqueue(s.rq, t), s.ports[p := Port(port.msgs + [m], port.waits[1..], port.woken + {t})]), true)
  }

  /** One turn of receive_blocking by the current task: take a message, or wait and block. */
  function ReceiveTurn(s: Sys, p: Pid): (Sys, Option<nat>)
    requires p in s.ports && s.rq.current.Some?
  {
    var t, port := s.rq.current.value, s.ports[p];
    if port.msgs != []
        then (s.(ports := s.ports[p := Port(port.msgs[1..], port.waits, port.woken - {t})]), Some(port.msgs[0]))
    else (Sys(Block(s.rq), s.ports[p := Port([], port.waits + [t], port.woken - {t})]), None)
  }

  /** Port::receive. */
  function Receive(s: Sys, p: Pid): (Sys, Option<nat>)
    requires p in s.ports
  {
    var port := s.ports[p];
    if port.msgs == []
        then (s, None) else (s.(ports := s.ports[p := port.(msgs := port.msgs[1..])]), Some(port.msgs[0]))
  }

  // ---------------------------------------------------------------- where every task is

  datatype Place = Current | Queued | Waiting(p: Pid) | Dead

  type Places = map<Tid, Place>

  ghost predicate At(w: Places, t: Tid, x: Place) { t in w && w[t] == x }

  ghost predicate QueueOk(w: Places, s: seq<Tid>, x: Place) {
    NoDup(s) && forall t: Tid :: t in s <==> At(w, t, x)
  }

  /** No task is in two of: current, run queue, the wait list of a port, the zombie list. */
  ghost predicate Placed(s: Sys, w: Places) {
    && (forall t: Tid :: s.rq.current == Some(t) <==> At(w, t, Current))
    && QueueOk(w, s.rq.queue, Queued) && QueueOk(w, s.rq.zombies, Dead)
    && (forall p :: p in s.ports ==> QueueOk(w, s.ports[p].waits, Waiting(p)))
  }

  /** The recorded state of a task is that of its place. */
  ghost predicate StatesOk(s: Sys, w: Places) {
    forall t :: t in w ==> t in s.rq.state && s.rq.state[t] == StateOf(w[t])
  }

  function StateOf(x: Place): TaskState {
    match x
    case Current => Running
    case Queued => Ready
    case Waiting(_) => Blocked
    case Dead => Zombie
  }

  /** Messages never outnumber the woken receivers while some receiver still waits. */
  ghost predicate NoLostWake(s: Sys, w: Places) {
    forall p :: p in s.ports ==>
      && |s.ports[p].msgs| <= PortQueueLen
      && (s.ports[p].waits != [] ==> |s.ports[p].msgs| <= |s.ports[p].woken|)
      && (forall t :: t in s.ports[p].woken ==> t != s.rq.boot && (At(w, t, Queued) || At(w, t, Current)))
      && (forall t :: t in s.ports[p].waits ==> t != s.rq.boot)
  }

  ghost predicate Good(s: Sys, w: Places) {
    Placed(s, w) && StatesOk(s, w) && NoLostWake(s, w)
  }

  // ---------------------------------------------------------------- steps

  datatype Event =
    | Spawn(t: Tid)
    | Tick
    | DoSend(p: Pid, m: nat)
    | DoReceive(p: Pid)
    | Wait(p: Pid)
    | DoExit
    | DoReap(i: nat)

  /** The current task is in the middle of receive_blocking on another port, or on any port when p is None. */
  ghost predicate Busy(s: Sys, but: Option<Pid>) {
    exists q :: q in s.ports && Some(q) != but && s.rq.current.Some? && s.rq.current.value in s.ports[q].woken
  }

  /** Steps of the system. A task blocks only when another one is runnable; a woken receiver looks at its
      port before it does anything else; the boot placeholder neither waits nor exits. */
  ghost predicate Step(s: Sys, w: Places, e: Event, r: Sys) {
    match e
    case Spawn(t) => t !in w && t != s.rq.boot && r == s.(rq := Enqueue(s.rq, t))
    case Tick => r == s.(rq := Schedule(s.rq))
    case DoSend(p, m) => p in s.ports && r == Send(s, p, m).0
    case DoReceive(p) => p in s.ports && r == Receive(s, p).0
    case Wait(p) =>
      && p in s.ports && s.rq.current.Some? && s.rq.current != Some(s.rq.boot) && !Busy(s, Some(p))
      && (s.ports[p].msgs == [] ==> s.rq.queue != [])
      && r == ReceiveTurn(s, p).0
    case DoExit => s.rq.current.Some? && s.rq.current != Some(s.rq.boot) && !Busy(s, None) && r == s.(rq := Exit(s.rq))
    case DoReap(i) => i < |s.rq.zombies| && r == s.(rq := Reap(s.rq, i))
  }

  /** Where the tasks are after a step. */
  ghost function After(s: Sys, w: Places, e: Event): Places
    requires Placed(s, w)
  {
    match e
    case Spawn(t) => w[t := Queued]
    case Tick => AfterPick(Reschedule(s.rq), AfterResched(s.rq, w))
    case DoSend(p, m) =>
      if p in s.ports && |s.ports[p].msgs| < PortQueueLen
          && s.ports[p].waits != [] then w[s.ports[p].waits[0] := Queued] else w
    case DoReceive(p) => w
    case Wait(p) =>
      if p in s.ports && s.rq.current.Some?
          && s.ports[p].msgs == [] then AfterPick(s.rq, w[s.rq.current.value := Waiting(p)]) else w
    case DoExit => if s.rq.current.Some? then AfterPick(s.rq, w[s.rq.current.value := Dead]) else w
    case DoReap(i) => if i < |s.rq.zombies| then w - {s.rq.zombies[i]} else w
  }

  ghost function AfterPick(r: RunQueue, w: Places): Places {
    if r.queue == [] then w else w[r.queue[0] := Current]
  }

  ghost function AfterResched(r: RunQueue, w: Places): Places {
    match r.current
    case None => w
    case Some(t) => if t == r.boot then w - {t} else w[t := Queued]
  }

  // ---------------------------------------------------------------- lists and places

  lemma QueueAppend(w: Places, s: seq<Tid>, t: Tid, x: Place)
    requires QueueOk(w, s, x) && t !in s
    ensures QueueOk(w[t := x], s + [t], x)
  {
  }

  /** A task moved between two other places does not touch this list. */
  lemma QueueOther(w: Places, s: seq<Tid>, x: Place, t: Tid, y: Place)
    requires QueueOk(w, s, x) && t !in s && y != x
    ensures QueueOk(w[t := y], s, x)
  {
  }

  lemma QueueHead(w: Places, s: seq<Tid>, x: Place, y: Place)
    requires QueueOk(w, s, x) && s != [] && y != x
    ensures QueueOk(w[s[0] := y], s[1..], x)
  {
    assert s == [s[0]] + s[1..];
    assert forall t: Tid :: t in s[1..] <==> t in s && t != s[0];
  }

  lemma QueueGone(w: Places, s: seq<Tid>, x: Place, t: Tid)
    requires QueueOk(w, s, x) && t !in s
    ensures QueueOk(w - {t}, s, x)
  {
  }

  lemma QueueRemove(w: Places, s: seq<Tid>, x: Place, i: nat)
    requires QueueOk(w, s, x) && i < |s|
    ensures QueueOk(w - {s[i]}, s[..i] + s[i + 1..], x)
  {
    var r := s[..i] + s[i + 1..];
    assert s == s[..i] + [s[i]] + s[i + 1..];
    assert forall t: Tid :: t in r <==> t in s && t != s[i];
  }

  ghost predicate NobodyRuns(w: Places) {
    forall t: Tid :: !At(w, t, Current)
  }

  /** Nobody current: every list is where the places say. */
  ghost predicate PlacedIdle(rq: RunQueue, ports: map<Pid, Port>, w: Places) {
    && NobodyRuns(w)
    && QueueOk(w, rq.queue, Queued) && QueueOk(w, rq.zombies, Dead)
    && (forall p :: p in ports ==> QueueOk(w, ports[p].waits, Waiting(p)))
  }

  lemma PickPlaced(rq: RunQueue, ports: map<Pid, Port>, w: Places)
    requires PlacedIdle(rq, ports, w) && rq.current.None?
    ensures Placed(Sys(PickNext(rq).0, ports), AfterPick(rq, w))
  {
    hide QueueOk;
    if rq.queue != [] {
      var t := rq.queue[0];
      assert t in rq.queue && At(w, t, Queued) by { Member(w, rq.queue, Queued, t); }
      QueueHead(w, rq.queue, Queued, Current);
      OtherLists(rq, ports, w, t, Queued, Current);
      forall u: Tid ensures Some(t) == Some(u) <==> At(w[t := Current], u, Current) { assert !At(w, u, Current); }
    }
  }

  lemma Member(w: Places, s: seq<Tid>, x: Place, t: Tid)
    requires QueueOk(w, s, x)
    ensures t in s <==> At(w, t, x)
  {
  }

  /** The lists of places other than `x` and `y` do not notice a move from `x` to `y`. */
  lemma OtherLists(rq: RunQueue, ports: map<Pid, Port>, w: Places, t: Tid, x: Place, y: Place)
    requires QueueOk(w, rq.queue, Queued) && QueueOk(w, rq.zombies, Dead) && At(w, t, x)
    requires forall p :: p in ports ==> QueueOk(w, ports[p].waits, Waiting(p))
    ensures x != Queued && y != Queued ==> QueueOk(w[t := y], rq.queue, Queued)
    ensures x != Dead && y != Dead ==> QueueOk(w[t := y], rq.zombies, Dead)
    ensures forall p :: p in ports && x != Waiting(p) && y != Waiting(p) ==>
            QueueOk(w[t := y], ports[p].waits, Waiting(p))
  {
    hide QueueOk;
    Member(w, rq.queue, Queued, t);
    Member(w, rq.zombies, Dead, t);
    if x != Queued && y != Queued { QueueOther(w, rq.queue, Queued, t, y); }
    if x != Dead && y != Dead { QueueOther(w, rq.zombies, Dead, t, y); }
    forall p | p in ports && x != Waiting(p) && y != Waiting(p) ensures QueueOk(w[t := y], ports[p].waits, Waiting(p)) {
      Member(w, ports[p].waits, Waiting(p), t);
      QueueOther(w, ports[p].waits, Waiting(p), t, y);
    }
  }

  lemma ReschedPlaced(s: Sys, w: Places)
    requires Placed(s, w)
    ensures PlacedIdle(Reschedule(s.rq), s.ports, AfterResched(s.rq, w)) && Reschedule(s.rq).current.None?
  {
    hide QueueOk;
    match s.rq.current
    case None =>
    case Some(t) =>
      assert At(w, t, Current);
      Member(w, s.rq.queue, Queued, t);
      if t == s.rq.boot {
        GoneLists(s, w, t);
        forall u: Tid ensures !At(w - {t}, u, Current) { assert s.rq.current == Some(u) <==> At(w, u, Current); }
      } else {
        QueueAppend(w, s.rq.queue, t, Queued);
        OtherLists(s.rq, s.ports, w, t, Current, Queued);
        var w2 := w[t := Queued];
        forall u: Tid ensures !At(w2, u, Current) { assert s.rq.current == Some(u) <==> At(w, u, Current); }
      }
  }

  lemma GoneLists(s: Sys, w: Places, t: Tid)
    requires Placed(s, w) && At(w, t, Current)
    ensures QueueOk(w - {t}, s.rq.queue, Queued) && QueueOk(w - {t}, s.rq.zombies, Dead)
    ensures forall p :: p in s.ports ==> QueueOk(w - {t}, s.ports[p].waits, Waiting(p))
  {
    hide QueueOk;
    Member(w, s.rq.queue, Queued, t);
    Member(w, s.rq.zombies, Dead, t);
    QueueGone(w, s.rq.queue, Queued, t);
    QueueGone(w, s.rq.zombies, Dead, t);
    forall p | p in s.ports ensures QueueOk(w - {t}, s.ports[p].waits, Waiting(p)) {
      Member(w, s.ports[p].waits, Waiting(p), t);
      QueueGone(w, s.ports[p].waits, Waiting(p), t);
    }
  }

  lemma TickPlaced(s: Sys, w: Places)
    requires Placed(s, w)
    ensures Placed(s.(rq := Schedule(s.rq)), After(s, w, Tick))
  {
    hide QueueOk, Placed, PlacedIdle;
    ReschedPlaced(s, w);
    PickPlaced(Reschedule(s.rq), s.ports, AfterResched(s.rq, w));
  }

  lemma SpawnPlaced(s: Sys, w: Places, t: Tid)
    requires Placed(s, w) && t !in w
    ensures Placed(s.(rq := Enqueue(s.rq, t)), w[t := Queued])
  {
    hide QueueOk;
    Member(w, s.rq.queue, Queued, t);
    Member(w, s.rq.zombies, Dead, t);
    QueueAppend(w, s.rq.queue, t, Queued);
    QueueOther(w, s.rq.zombies, Dead, t, Queued);
    forall p | p in s.ports ensures QueueOk(w[t := Queued], s.ports[p].waits, Waiting(p)) {
      Member(w, s.ports[p].waits, Waiting(p), t);
      QueueOther(w, s.ports[p].waits, Waiting(p), t, Queued);
    }
    CurrentKept(s, w, t, Queued);
  }

  lemma CurrentKept(s: Sys, w: Places, t: Tid, y: Place)
    requires (forall u: Tid :: s.rq.current == Some(u) <==> At(w, u, Current)) && !At(w, t, Current) && y != Current
    ensures forall u: Tid :: s.rq.current == Some(u) <==> At(w[t := y], u, Current)
  {
    var w2 := w[t := y];
    forall u: Tid ensures s.rq.current == Some(u) <==>
        At(w2, u, Current) { assert s.rq.current == Some(u) <==> At(w, u, Current); }
  }

  lemma SendPlaced(s: Sys, w: Places, p: Pid, m: nat)
    requires Placed(s, w) && p in s.ports
    ensures Placed(Send(s, p, m).0, After(s, w, DoSend(p, m)))
  {
    hide QueueOk;
    var port := s.ports[p];
    if |port.msgs| < PortQueueLen && port.waits != [] {
      var t := port.waits[0];
      assert t in port.waits;
      Member(w, port.waits, Waiting(p), t);
      Member(w, s.rq.queue, Queued, t);
      QueueHead(w, port.waits, Waiting(p), Queued);
      QueueAppend(w, s.rq.queue, t, Queued);
      OtherLists(s.rq, s.ports, w, t, Waiting(p), Queued);
      CurrentKept(s, w, t, Queued);
    }
  }

  /** The current task leaves the CPU for place `y`. */
  lemma LeavePlaced(s: Sys, w: Places, t: Tid, y: Place)
    requires Placed(s, w) && s.rq.current == Some(t) && y != Current && y != Queued
    ensures NobodyRuns(w[t := y]) && QueueOk(w[t := y], s.rq.queue, Queued)
    ensures y == Dead ==> QueueOk(w[t := y], s.rq.zombies + [t], Dead)
    ensures y != Dead ==> QueueOk(w[t := y], s.rq.zombies, Dead)
    ensures forall p :: p in s.ports ==>
            QueueOk(w[t := y], if y == Waiting(p) then s.ports[p].waits + [t] else s.ports[p].waits, Waiting(p))
  {
    hide QueueOk;
    assert At(w, t, Current);
    OtherLists(s.rq, s.ports, w, t, Current, y);
    Member(w, s.rq.zombies, Dead, t);
    QueueAppend(w, s.rq.zombies, t, Dead);
    var w2 := w[t := y];
    forall u: Tid ensures !At(w2, u, Current) { assert s.rq.current == Some(u) <==> At(w, u, Current); }
    forall p | p in s.ports
        ensures QueueOk(w2, if y == Waiting(p) then s.ports[p].waits + [t] else s.ports[p].waits, Waiting(p)) {
      if y == Waiting(p) {
        Member(w, s.ports[p].waits, Waiting(p), t);
        QueueAppend(w, s.ports[p].waits, t, Waiting(p));
      }
    }
  }

  lemma WaitPlaced(s: Sys, w: Places, p: Pid)
    requires Placed(s, w) && p in s.ports && s.rq.current.Some? && (s.ports[p].msgs == [] ==> s.rq.queue != [])
    ensures Placed(ReceiveTurn(s, p).0, After(s, w, Wait(p)))
  {
    hide QueueOk;
    var t := s.rq.current.value;
    if s.ports[p].msgs == [] {
      var r := ReceiveTurn(s, p).0;
      var rq := s.rq.(current := None, state := s.rq.state[t := Blocked]);
      LeavePlaced(s, w, t, Waiting(p));
      PickPlaced(rq, r.ports, w[t := Waiting(p)]);
      assert Block(s.rq) == PickNext(rq).0;
    }
  }

  lemma ExitPlaced(s: Sys, w: Places)
    requires Placed(s, w) && s.rq.current.Some?
    ensures Placed(s.(rq := Exit(s.rq)), After(s, w, DoExit))
  {
    hide QueueOk;
    var t := s.rq.current.value;
    var rq := s.rq.(current := None, zombies := s.rq.zombies + [t], state := s.rq.state[t := Zombie]);
    LeavePlaced(s, w, t, Dead);
    PickPlaced(rq, s.ports, w[t := Dead]);
  }

  lemma ReapPlaced(s: Sys, w: Places, i: nat)
    requires Placed(s, w) && i < |s.rq.zombies|
    ensures Placed(s.(rq := Reap(s.rq, i)), w - {s.rq.zombies[i]})
  {
    hide QueueOk;
    var t := s.rq.zombies[i];
    assert t in s.rq.zombies;
    Member(w, s.rq.zombies, Dead, t);
    Member(w, s.rq.queue, Queued, t);
    QueueRemove(w, s.rq.zombies, Dead, i);
    QueueGone(w, s.rq.queue, Queued, t);
    forall p | p in s.ports ensures QueueOk(w - {t}, s.ports[p].waits, Waiting(p)) {
      Member(w, s.ports[p].waits, Waiting(p), t);
      QueueGone(w, s.ports[p].waits, Waiting(p), t);
    }
    var w2 := w - {t};
    forall u: Tid ensures s.rq.current == Some(u) <==>
        At(w2, u, Current) { assert s.rq.current == Some(u) <==> At(w, u, Current); }
  }

  lemma StepPlaced(s: Sys, w: Places, e: Event, r: Sys)
    requires Placed(s, w) && Step(s, w, e, r)
    ensures Placed(r, After(s, w, e))
  {
    hide Placed, Busy;
    match e
    case Spawn(t) => SpawnPlaced(s, w, t);
    case Tick => TickPlaced(s, w);
    case DoSend(p, m) => SendPlaced(s, w, p, m);
    case DoReceive(p) => ReceivePlaced(s, w, p);
    case Wait(p) => WaitPlaced(s, w, p);
    case DoExit => ExitPlaced(s, w);
    case DoReap(i) => ReapPlaced(s, w, i);
  }

  lemma ReceivePlaced(s: Sys, w: Places, p: Pid)
    requires Placed(s, w) && p in s.ports
    ensures Placed(Receive(s, p).0, w)
  {
    hide QueueOk;
  }

  /** The current task taken off the CPU is in no list. */
  lemma TakePlaced(s: Sys, w: Places, t: Tid)
    requires Placed(s, w) && s.rq.current == Some(t)
    ensures Placed(s.(rq := s.rq.(current := None)), w - {t})
  {
    hide QueueOk;
    assert At(w, t, Current);
    GoneLists(s, w, t);
    var w2 := w - {t};
    forall u: Tid ensures !At(w2, u, Current) { assert s.rq.current == Some(u) <==> At(w, u, Current); }
  }

  /** The first waiter taken off its port is in no list. */
  lemma PopPlaced(s: Sys, w: Places, p: Pid, port: Port)
    requires Placed(s, w) && p in s.ports && s.ports[p].waits != [] && port.waits == s.ports[p].waits[1..]
    ensures Placed(s.(ports := s.ports[p := port]), w - {s.ports[p].waits[0]}) && At(w, s.ports[p].waits[0], Waiting(p))
  {
    hide QueueOk;
    var waits := s.ports[p].waits;
    var t := waits[0];
    assert t in waits;
    Member(w, waits, Waiting(p), t);
    Member(w, s.rq.queue, Queued, t);
    Member(w, s.rq.zombies, Dead, t);
    QueueGone(w, s.rq.queue, Queued, t);
    QueueGone(w, s.rq.zombies, Dead, t);
    QueueRemove(w, waits, Waiting(p), 0);
    assert waits[..0] + waits[1..] == waits[1..];
    forall q | q in s.ports && q != p ensures QueueOk(w - {t}, s.ports[q].waits, Waiting(q)) {
      Member(w, s.ports[q].waits, Waiting(q), t);
      QueueGone(w, s.ports[q].waits, Waiting(q), t);
    }
    var w2 := w - {t};
    forall u: Tid ensures s.rq.current == Some(u) <==>
        At(w2, u, Current) { assert s.rq.current == Some(u) <==> At(w, u, Current); }
  }

  // ---------------------------------------------------------------- task states

  lemma StepStates(s: Sys, w: Places, e: Event, r: Sys)
    requires Placed(s, w) && StatesOk(s, w) && Step(s, w, e, r)
    ensures StatesOk(r, After(s, w, e))
  {
    hide QueueOk, Busy;
    if e.Wait? { assert At(w, s.rq.current.value, Current); }
  }

  // ---------------------------------------------------------------- wake-ups

  /** Tasks that were queued or current and not the placeholder stay so, unless they wait, exit or were not
      on their way in the first place. */
  lemma StillOnTheWay(s: Sys, w: Places, e: Event, r: Sys, t: Tid)
    requires Placed(s, w) && Step(s, w, e, r) && t != s.rq.boot && (At(w, t, Queued) || At(w, t, Current))
    requires (e.DoExit? || e.Wait?) ==> s.rq.current != Some(t)
    ensures At(After(s, w, e), t, Queued) || At(After(s, w, e), t, Current)
  {
    hide Busy;
    match e
    case DoReap(i) =>
      assert s.rq.zombies[i] in s.rq.zombies;
    case DoSend(p, m) =>
    case _ =>
  }

  lemma StepNoLost(s: Sys, w: Places, e: Event, r: Sys)
    requires Placed(s, w) && NoLostWake(s, w) && Step(s, w, e, r)
    ensures NoLostWake(r, After(s, w, e))
  {
    hide Placed, QueueOk, After;
    assert r.ports.Keys == s.ports.Keys && r.rq.boot == s.rq.boot;
    forall q | q in r.ports ensures PortOk(r, After(s, w, e), q) {
      StepPort(s, w, e, r, q);
    }
  }

  ghost predicate PortOk(s: Sys, w: Places, p: Pid)
    requires p in s.ports
  {
    && |s.ports[p].msgs| <= PortQueueLen
    && (s.ports[p].waits != [] ==> |s.ports[p].msgs| <= |s.ports[p].woken|)
    && (forall t :: t in s.ports[p].woken ==> t != s.rq.boot && (At(w, t, Queued) || At(w, t, Current)))
    && (forall t :: t in s.ports[p].waits ==> t != s.rq.boot)
  }

  lemma StepPort(s: Sys, w: Places, e: Event, r: Sys, q: Pid)
    requires Placed(s, w) && q in s.ports && PortOk(s, w, q) && Step(s, w, e, r) && q in r.ports
    ensures PortOk(r, After(s, w, e), q)
  {
    hide Placed, QueueOk;
    PortCounts(s, w, e, r, q);
    forall t | t in r.ports[q].woken
        ensures t != r.rq.boot && (At(After(s, w, e), t, Queued) || At(After(s, w, e), t, Current)) {
      PortWoken(s, w, e, r, q, t);
    }
  }

  lemma PortCounts(s: Sys, w: Places, e: Event, r: Sys, q: Pid)
    requires q in s.ports && PortOk(s, w, q) && Step(s, w, e, r) && q in r.ports && Placed(s, w)
    ensures |r.ports[q].msgs| <= PortQueueLen && (r.ports[q].waits != [] ==> |r.ports[q].msgs| <= |r.ports[q].woken|)
    ensures r.rq.boot == s.rq.boot && forall t :: t in r.ports[q].waits ==> t != r.rq.boot
  {
    hide QueueOk, Busy, At;
    match e
    case DoSend(p, m) =>
      if q == p && s.ports[p].waits != [] {
        var waits := s.ports[p].waits;
        assert waits == [waits[0]] + waits[1..];
        assert forall t :: t in waits[1..] ==> t in waits;
        NotWokenYet(s, w, p, waits[0]);
      }
    case _ =>
  }

  /** A waiting task has not been woken. */
  lemma NotWokenYet(s: Sys, w: Places, p: Pid, t: Tid)
    requires Placed(s, w) && p in s.ports && PortOk(s, w, p) && t in s.ports[p].waits
    ensures t !in s.ports[p].woken
  {
    Member(w, s.ports[p].waits, Waiting(p), t);
  }

  lemma PortWoken(s: Sys, w: Places, e: Event, r: Sys, q: Pid, t: Tid)
    requires Placed(s, w) && q in s.ports && PortOk(s, w, q) && Step(s, w, e, r) && q in r.ports
             && t in r.ports[q].woken
    ensures t != r.rq.boot && (At(After(s, w, e), t, Queued) || At(After(s, w, e), t, Current))
  {
    hide QueueOk;
    if t in s.ports[q].woken {
      StillOnTheWay(s, w, e, r, t);
    } else {
      assert e.DoSend? && e.p == q && t == s.ports[q].waits[0] && t in s.ports[q].waits;
    }
  }

  // ---------------------------------------------------------------- runs

  lemma StepGood(s: Sys, w: Places, e: Event, r: Sys)
    requires Good(s, w) && Step(s, w, e, r)
    ensures Good(r, After(s, w, e))
  {
    hide Placed, StatesOk, NoLostWake, Step, After;
    StepPlaced(s, w, e, r);
    StepStates(s, w, e, r);
    StepNoLost(s, w, e, r);
  }

  /** The kernel starts with the placeholder running and empty ports. */
  lemma StartGood(boot: Tid, ports: map<Pid, Port>)
    requires forall p :: p in ports ==> ports[p] == Port([], [], {})
    ensures Good(Sys(RunQueue([], Some(boot), [], map[boot := Running], boot), ports), map[boot := Current])
  {
    var w: Places := map[boot := Current];
    assert forall t: Tid :: At(w, t, Current) <==> t == boot;
  }

  ghost predicate IsRun(states: seq<Sys>, places: seq<Places>, events: seq<Event>) {
    && |states| == |places| == |events| + 1 && Good(states[0], places[0])
    && forall i :: 0 <= i < |events| ==>
         Good(states[i], places[i]) ==>
             Step(states[i], places[i], events[i], states[i + 1])
                 && places[i + 1] == After(states[i], places[i], events[i])
  }

  /** In every reachable state each task is in at most one place, its state is that of the place, and while
      a receiver waits the messages do not outnumber the woken receivers. */
  lemma {:induction false} RunGood(states: seq<Sys>, places: seq<Places>, events: seq<Event>, k: nat)
    requires IsRun(states, places, events) && k <= |events|
    ensures Good(states[k], places[k])
  {
    hide Good, Step, After;
    if k > 0 {
      RunGood(states, places, events, k - 1);
      StepGood(states[k - 1], places[k - 1], events[k - 1], states[k]);
    }
  }

  /** Whether a step takes a task from the queue. */
  ghost predicate Picks(s: Sys, e: Event) {
    match e
    case Tick => Reschedule(s.rq).queue != []
    case Wait(p) => p in s.ports && s.ports[p].msgs == [] && s.rq.queue != []
    case DoExit => s.rq.queue != []
    case _ => false
  }

  /** Picks among the first `k` steps. */
  ghost function PickCount(states: seq<Sys>, events: seq<Event>, k: nat): nat
    requires k <= |events| <= |states|
  {
    if k == 0 then 0 else PickCount(states, events, k - 1) + if Picks(states[k - 1], events[k - 1]) then 1 else 0
  }

  /** One step: the queue loses its front when the step picks, and otherwise only grows at the back. */
  lemma StepQueue(s: Sys, w: Places, e: Event, r: Sys)
    requires Step(s, w, e, r) && s.rq.queue != []
    ensures Picks(s, e) ==> r.rq.current == Some(s.rq.queue[0]) && s.rq.queue[1..] <= r.rq.queue
    ensures !Picks(s, e) ==> s.rq.queue <= r.rq.queue
  {
    hide Busy;
  }

  /** Bounded waiting: a task at position `i` moves one place forward with every pick, whatever else
      happens, and becomes current at exactly the (i+1)-th. */
  lemma {:induction false} BoundedWaiting(states: seq<Sys>, places: seq<Places>, events: seq<Event>, i: nat, k: nat)
    requires IsRun(states, places, events) && k <= |events| && i < |states[0].rq.queue|
    ensures PickCount(states, events, k) <= i ==>
              |states[k].rq.queue| > i - PickCount(states, events, k)
              && states[k].rq.queue[i - PickCount(states, events, k)] == states[0].rq.queue[i]
    ensures k > 0 && PickCount(states, events, k - 1) == i && PickCount(states, events, k) == i + 1 ==>
              states[k].rq.current == Some(states[0].rq.queue[i])
  {
    hide Good, Step, Picks, After;
    if k > 0 {
      BoundedWaiting(states, places, events, i, k - 1);
      RunGood(states, places, events, k - 1);
      if PickCount(states, events, k - 1) <= i {
        StepQueue(states[k - 1], places[k - 1], events[k - 1], states[k]);
      }
    }
  }

  // ---------------------------------------------------------------- the fallback of block_current_and_switch

  /** A turn of receive_blocking on an empty port leaves every task in one place exactly when another task
      was runnable; otherwise the receiver is both current and on the wait list. */
  lemma BlockIff(s: Sys, w: Places, p: Pid)
    requires Placed(s, w) && p in s.ports && s.rq.current.Some? && s.ports[p].msgs == []
    ensures (exists w2 :: Placed(ReceiveTurn(s, p).0, w2)) <==> s.rq.queue != []
  {
    var r := ReceiveTurn(s, p).0;
    if s.rq.queue != [] {
      WaitPlaced(s, w, p);
    } else {
      var t := s.rq.current.value;
      assert r.rq.current == Some(t) && r.ports[p].waits[|s.ports[p].waits|] == t;
      forall w2 ensures !Placed(r, w2) { NotTwice(r, w2, p, t); }
    }
  }

  /** The boot placeholder, one spawned task, one tick and an empty port: the lone task's blocking receive
      leaves it both running and waiting. */
  lemma BlockAlone()
    ensures var s0 := Sys(RunQueue([], Some(0), [], map[0 := Running], 0), map[0 := Port([], [], {})]);
            var s1 := s0.(rq := Enqueue(s0.rq, 1));
            var s2 := s1.(rq := Schedule(s1.rq));
            && Good(s0, map[0 := Current]) && s2.rq.current == Some(1) && Good(s2, map[1 := Current])
            && !exists w :: Placed(ReceiveTurn(s2, 0).0, w)
  {
    var s0 := Sys(RunQueue([], Some(0), [], map[0 := Running], 0), map[0 := Port([], [], {})]);
    var w0: Places := map[0 := Current];
    StartGood(0, s0.ports);
    var s1 := s0.(rq := Enqueue(s0.rq, 1));
    assert Step(s0, w0, Spawn(1), s1);
    StepGood(s0, w0, Spawn(1), s1);
    var w1 := After(s0, w0, Spawn(1));
    var s2 := s1.(rq := Schedule(s1.rq));
    assert Step(s1, w1, Tick, s2);
    StepGood(s1, w1, Tick, s2);
    assert s1.rq.queue == [1] && Reschedule(s1.rq).queue == [1];
    assert After(s1, w1, Tick) == map[1 := Current];
    BlockIff(s2, map[1 := Current], 0);
  }

  lemma NotTwice(s: Sys, w: Places, p: Pid, t: Tid)
    requires s.rq.current == Some(t) && p in s.ports && t in s.ports[p].waits
    ensures !Placed(s, w)
  {
    if Placed(s, w) { Member(w, s.ports[p].waits, Waiting(p), t); }
  }
}
