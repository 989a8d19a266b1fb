/** The run queue and the ports as objects updated in place (task/src/scheduler.rs:40-326,
    task/src/lib.rs:626-757, ipc/src/lib.rs:57-152). */
module SchedulerDriver {
  import opened Bytes
  import opened Sequences
  import S = Scheduler
  type Tid = S.Tid
  type Pid = S.Pid

  /** `ports` mirrors the ports of the system and `places` says where every task is. */
  class RunQueue {
    var queue: seq<Tid>
    var current: Option<Tid>
    var zombies: seq<Tid>
    var state: map<Tid, S.TaskState>
    const boot: Tid
    ghost var ports: map<Pid, S.Port>
    ghost var places: S.Places

    ghost function V(): S.RunQueue
      reads this
    {
      S.RunQueue(queue, current, zombies, state, boot)
    }

    ghost function Sys(): S.Sys
      reads this
    {
      S.Sys(V(), ports)
    }

    /** Every task is in the one place `places` gives it, with the state of that place. */
    ghost predicate Tidy()
      reads this
    {
      S.Placed(Sys(), places) && S.StatesOk(Sys(), places)
    }

    /** Tidy, and no wake-up of any port is lost. */
    ghost predicate Valid()
      reads this
    {
      S.Good(Sys(), places)
    }

    constructor (boot: Tid, ghost ports: map<Pid, S.Port>)
      requires forall p :: p in ports ==> ports[p] == S.Port([], [], {})
      ensures Valid() && this.boot == boot && this.ports == ports && places == map[boot := S.Current]
              && current == Some(boot) && queue == []
    {
      queue, current, zombies, state, this.boot := [], Some(boot), [], map[boot := S.Running], boot;
      this.ports, places := ports, map[boot := S.Current];
      new;
      S.StartGood(boot, ports);
    }

    /** enqueue and wake_task: a task that is nowhere goes to the back of the queue. */
    method Enqueue(t: Tid)
      requires Tidy() && t !in places
      modifies this`queue, this`state, this`places
      ensures Tidy() && places == old(places)[t := S.Queued]
      ensures queue == old(queue) + [t] && V() == S.Enqueue(old(V()), t)
    {
      hide S.QueueOk;
      S.SpawnPlaced(Sys(), places, t);
      state := state[t := S.Ready];
      queue := queue + [t];
      places := places[t := S.Queued];
    }

    /** enqueue_task of a new task. */
    method Spawn(t: Tid)
      requires Valid() && t !in places && t != boot
      modifies this`queue, this`state, this`places
      ensures Valid() && places == old(places)[t := S.Queued] && queue == old(queue) + [t]
      ensures S.Step(old(Sys()), old(places), S.Spawn(t), Sys())
    {
      hide S.Placed, S.StatesOk, S.NoLostWake, S.StateOf;
      S.StepGood(Sys(), places, S.Spawn(t), Sys().(rq := S.Enqueue(V(), t)));
      Enqueue(t);
    }

    method Dequeue() returns (r: Option<Tid>)
      modifies this`queue
      ensures old(queue) == [] ==> r == None && queue == []
      ensures old(queue) != [] ==> r == Some(old(queue)[0]) && [r.value] + queue == old(queue)
    {
      if queue == [] { return None; }
      r := Some(queue[0]);
      queue := queue[1..];
    }

    /** pick_next_task: every caller has taken the current task away first. */
    method PickNextTask() returns (r: Option<Tid>)
      requires Tidy() && current.None?
      modifies this`queue, this`current, this`state, this`places
      ensures Tidy() && current == r && (r.None? <==> old(queue) == [])
      ensures r.None? ==> V() == old(V()) && places == old(places)
      ensures r.Some? ==> old(queue) == [r.value] + queue && places == old(places)[r.value := S.Current]
      ensures (V(), r) == S.PickNext(old(V()))
    {
      hide S.QueueOk;
      S.PickPlaced(V(), ports, places);
      r := Dequeue();
      if r.None? { return; }
      state := state[r.value := S.Running];
      current := r;
      places := places[r.value := S.Current];
    }

    /** take_current: the task is in no place until the caller puts it somewhere. */
    method TakeCurrent() returns (r: Option<Tid>)
      requires Tidy()
      modifies this`current, this`places
      ensures Tidy() && current == None && r == old(current)
      ensures places == if r.Some? then old(places) - {r.value} else old(places)
    {
      hide S.QueueOk;
      r := current;
      if r.Some? {
        S.TakePlaced(Sys(), places, r.value);
        places := places - {r.value};
      }
      current := None;
    }

    /** reschedule_current: the back of the queue, or nowhere for the placeholder. */
    method RescheduleCurrent()
      requires Tidy()
      modifies this`queue, this`current, this`state, this`places
      ensures Tidy() && current == None
      ensures old(current).Some? && old(current).value != boot ==>
                places == old(places)[old(current).value := S.Queued] && queue == old(queue) + [old(current).value]
      ensures old(current) == Some(boot) ==> places == old(places) - {boot} && queue == old(queue)
      ensures old(current).None? ==> places == old(places) && queue == old(queue)
      ensures V() == S.Reschedule(old(V()))
    {
      hide S.Placed, S.StatesOk;
      var t := TakeCurrent();
      if t.Some? && t.value != boot {
        Enqueue(t.value);
        assert (old(places) - {t.value})[t.value := S.Queued] == old(places)[t.value := S.Queued];
      }
    }

    /** schedule: a round-robin turn. The switch is to another task, away from the one that ran. */
    method Schedule() returns (switch: Option<Tid>)
      requires Valid()
      modifies this`queue, this`current, this`state, this`places
      ensures Valid() && S.Step(old(Sys()), old(places), S.Tick, Sys())
              && places == S.After(old(Sys()), old(places), S.Tick)
      ensures switch.Some? <==> old(current).Some? && current.Some? && current != old(current)
      ensures switch.Some? ==> switch == current && old(queue) != [] && switch.value == old(queue)[0]
    {
      hide S.Placed, S.StatesOk, S.NoLostWake, S.StateOf;
      S.StepGood(Sys(), places, S.Tick, Sys().(rq := S.Schedule(V())));
      var before := current;
      RescheduleCurrent();
      switch := PickNextTask();
      if before.None? || switch == before { switch := None; }
    }

    /** block_current_and_switch: with another task runnable the current one leaves the CPU and is nowhere
        until its caller's wait list counts; without one it is current again, and marked blocked. */
    method BlockCurrentAndSwitch()
      requires Tidy()
      modifies this`queue, this`current, this`state, this`places
      ensures V() == S.Block(old(V()))
      ensures old(current).None? ==> Tidy() && V() == old(V()) && places == old(places)
      ensures old(current).Some? && old(queue) != [] ==>
                && Tidy() && places == (old(places) - {old(current).value})[old(queue)[0] := S.Current]
                && current == Some(old(queue)[0]) && [old(queue)[0]] + queue == old(queue)
      ensures old(current).Some? && old(queue) == [] ==> current == old(current) && queue == []
    {
      hide S.QueueOk;
      var t := TakeCurrent();
      if t.None? { return; }
      state := state[t.value := S.Blocked];
      var next := PickNextTask();
      if next.None? { current := t; }
    }

    /** SYS_EXIT up to the switch: the current task is a zombie and the next one runs. */
    method ExitCurrent()
      requires Valid() && current != Some(boot) && !S.Busy(Sys(), None)
      modifies this`queue, this`current, this`state, this`places, this`zombies
      ensures Valid() && (old(current).None? ==> V() == old(V()) && places == old(places))
      ensures old(current).Some? ==>
                && zombies == old(zombies) + [old(current).value] && old(current).value in places
                   && places[old(current).value] == S.Dead
                && S.Step(old(Sys()), old(places), S.DoExit, Sys())
                   && places == S.After(old(Sys()), old(places), S.DoExit)
                && current == if old(queue) == [] then None else Some(old(queue)[0])
    {
      hide S.Placed, S.StatesOk, S.NoLostWake, S.StateOf, S.Busy;
      if current.None? { return; }
      ghost var s, w := Sys(), places;
      S.StepGood(s, w, S.DoExit, s.(rq := S.Exit(V())));
      Running(s, w, current.value);
      var t := TakeCurrent();
      ZombiePlaced(Sys(), places, t.value);
      state := state[t.value := S.Zombie];
      zombies := zombies + [t.value];
      places := places[t.value := S.Dead];
      assert (w - {t.value})[t.value := S.Dead] == w[t.value := S.Dead];
      assert S.At(places, t.value, S.Dead);
      var next := PickNextTask();
    }

    /** find_zombie_child: the first zombie child of `parent`, or the one asked for, leaves the system. */
    method FindZombieChild(parents: map<Tid, Tid>, parent: Tid, child: Option<Tid>) returns (r: Option<Tid>)
      requires Valid()
      modifies this`zombies, this`places
      ensures Valid() && places == if r.Some? then old(places) - {r.value} else old(places)
      ensures r.None? ==> zombies == old(zombies) && forall z :: z in zombies ==> !IsChild(parents, parent, child, z)
      ensures r.Some? ==>
              exists i ::
                && 0 <= i < |old(zombies)| && old(zombies)[i] == r.value && IsChild(parents, parent, child, r.value)
                && V() == S.Reap(old(V()), i)
                && forall j :: 0 <= j < i ==> !IsChild(parents, parent, child, old(zombies)[j])
    {
      hide S.Placed, S.StatesOk, S.NoLostWake, S.StateOf;
      var i := 0;
      while i < |zombies|
        invariant 0 <= i <= |zombies| && zombies == old(zombies) && places == old(places)
        invariant forall j :: 0 <= j < i ==> !IsChild(parents, parent, child, zombies[j])
      {
        if IsChild(parents, parent, child, zombies[i]) {
          S.StepGood(Sys(), places, S.DoReap(i), Sys().(rq := S.Reap(V(), i)));
          r := Some(zombies[i]);
          zombies := zombies[..i] + zombies[i + 1..];
          places := places - {r.value};
          return;
        }
        i := i + 1;
      }
      r := None;
    }
  }

  /** A task that is nowhere joins the zombies. */
  lemma ZombiePlaced(s: S.Sys, w: S.Places, t: Tid)
    requires S.Placed(s, w) && S.StatesOk(s, w) && t !in w
    ensures var r := s.(rq := s.rq.(zombies := s.rq.zombies + [t], state := s.rq.state[t := S.Zombie]));
            S.Placed(r, w[t := S.Dead]) && S.StatesOk(r, w[t := S.Dead])
  {
    hide S.QueueOk;
    S.Member(w, s.rq.queue, S.Queued, t);
    S.Member(w, s.rq.zombies, S.Dead, t);
    S.QueueAppend(w, s.rq.zombies, t, S.Dead);
    S.QueueOther(w, s.rq.queue, S.Queued, t, S.Dead);
    forall p | p in s.ports ensures S.QueueOk(w[t := S.Dead], s.ports[p].waits, S.Waiting(p)) {
      S.Member(w, s.ports[p].waits, S.Waiting(p), t);
      S.QueueOther(w, s.ports[p].waits, S.Waiting(p), t, S.Dead);
    }
    S.CurrentKept(s, w, t, S.Dead);
  }

  predicate IsChild(parents: map<Tid, Tid>, parent: Tid, child: Option<Tid>, z: Tid) {
    z in parents && parents[z] == parent && (child.None? || child == Some(z))
  }

  class Port {
    const id: Pid
    var msgs: seq<nat>
    var waits: seq<Tid>
    ghost var woken: set<Tid>

    ghost function V(): S.Port
      reads this
    {
      S.Port(msgs, waits, woken)
    }

    /** The system is valid and this is its port number `id`. */
    ghost predicate Valid(rq: RunQueue)
      reads this, rq
    {
      rq.Valid() && id in rq.ports && rq.ports[id] == V()
    }

    constructor (id: Pid)
      ensures this.id == id && V() == S.Port([], [], {})
    {
      this.id, msgs, waits, woken := id, [], [], {};
    }

    /** send: refused on a full queue; otherwise the message goes last and the longest waiter is runnable again. */
    method Send(rq: RunQueue, m: nat) returns (ok: bool)
      requires Valid(rq)
      modifies this, rq`queue, rq`state, rq`places, rq`ports
      ensures Valid(rq) && S.Step(old(rq.Sys()), old(rq.places), S.DoSend(id, m), rq.Sys())
              && rq.ports == old(rq.ports)[id := V()]
      ensures ok <==> |old(msgs)| < S.PortQueueLen
      ensures !ok ==> V() == old(V()) && rq.V() == old(rq.V()) && rq.places == old(rq.places)
      ensures ok ==> msgs == old(msgs) + [m]
      ensures ok && old(waits) == [] ==> waits == [] && rq.V() == old(rq.V()) && rq.places == old(rq.places)
      ensures ok && old(waits) != [] ==>
                && [old(waits)[0]] + waits == old(waits) && rq.queue == old(rq.queue) + [old(waits)[0]]
                && old(waits)[0] in old(rq.places) && old(rq.places)[old(waits)[0]] == S.Waiting(id)
                && rq.places == old(rq.places)[old(waits)[0] := S.Queued]
    {
      hide S.Placed, S.StatesOk, S.NoLostWake, S.StateOf;
      ghost var s, w := rq.Sys(), rq.places;
      S.StepGood(s, w, S.DoSend(id, m), S.Send(s, id, m).0);
      if |msgs| >= S.PortQueueLen {
        assert rq.ports[id := V()] == rq.ports;
        return false;
      }
      msgs := msgs + [m];
      if waits != [] {
        var t := waits[0];
        waits := waits[1..];
        woken := woken + {t};
        PopTidy(s, w, id, V());
        rq.ports := rq.ports[id := V()];
        rq.places := w - {t};
        rq.Enqueue(t);
        assert (w - {t})[t := S.Queued] == w[t := S.Queued];
      } else {
        rq.ports := rq.ports[id := V()];
      }
      ok := true;
    }

    /** receive: the oldest message, without blocking. */
    method Receive(rq: RunQueue) returns (r: Option<nat>)
      requires Valid(rq)
      modifies this`msgs, rq`ports
      ensures Valid(rq) && S.Step(old(rq.Sys()), rq.places, S.DoReceive(id), rq.Sys())
              && rq.ports == old(rq.ports)[id := V()]
      ensures r.None? <==> old(msgs) == []
      ensures if r.Some? then old(msgs) == [r.value] + msgs else msgs == []
    {
      hide S.Placed, S.StatesOk, S.NoLostWake, S.StateOf;
      ghost var s := rq.Sys();
      S.StepGood(s, rq.places, S.DoReceive(id), S.Receive(s, id).0);
      if msgs == [] {
        assert rq.ports[id := V()] == rq.ports;
        return None;
      }
      r := Some(msgs[0]);
      msgs := msgs[1..];
      rq.ports := rq.ports[id := V()];
    }

    /** The current task may take a turn of receive_blocking: it is no placeholder, not between two turns on
        another port, and should it block another task can run. */
    ghost predicate MayWait(rq: RunQueue)
      reads this, rq
    {
      rq.current != Some(rq.boot) && !S.Busy(rq.Sys(), Some(id)) && (msgs == [] ==> rq.queue != [])
    }

    /** The turn on an empty port: on the wait list, then off the CPU. */
    method WaitHere(rq: RunQueue)
      requires Valid(rq) && rq.current.Some? && msgs == []
      modifies this`waits, this`woken, rq`queue, rq`current, rq`state, rq`places, rq`ports
      ensures rq.Sys() == S.ReceiveTurn(old(rq.Sys()), id).0 && rq.ports == old(rq.ports)[id := V()]
      ensures waits == old(waits) + [old(rq.current).value]
      ensures rq.places == S.After(old(rq.Sys()), old(rq.places), S.Wait(id))
      ensures old(rq.queue) != [] ==>
              rq.current == Some(old(rq.queue)[0]) && S.At(rq.places, old(rq.current).value, S.Waiting(id))
      ensures old(rq.queue) == [] ==> rq.current == old(rq.current)
    {
      hide S.Placed, S.StatesOk, S.NoLostWake, S.StateOf;
      ghost var s, w := rq.Sys(), rq.places;
      var t := rq.current.value;
      Running(s, w, t);
      woken := woken - {t};
      waits := waits + [t];
      rq.BlockCurrentAndSwitch();
      rq.places := S.AfterPick(s.rq, w[t := S.Waiting(id)]);
      rq.ports := rq.ports[id := V()];
    }

    /** One turn of receive_blocking; the caller runs it again once it is woken. */
    method ReceiveTurn(rq: RunQueue) returns (r: Option<nat>)
      requires Valid(rq) && rq.current.Some?
      modifies this, rq`queue, rq`current, rq`state, rq`places, rq`ports
      ensures r.None? <==> old(msgs) == []
      ensures r.Some? ==> old(msgs) == [r.value] + msgs && rq.V() == old(rq.V()) && waits == old(waits)
      ensures r.None? ==> waits == old(waits) + [old(rq.current).value]
      ensures old(MayWait(rq)) ==> Valid(rq) && S.Step(old(rq.Sys()), old(rq.places), S.Wait(id), rq.Sys())
      ensures rq.places == S.After(old(rq.Sys()), old(rq.places), S.Wait(id)) && rq.ports == old(rq.ports)[id := V()]
      ensures r.None? && old(rq.queue) != [] ==>
                rq.current == Some(old(rq.queue)[0]) && S.At(rq.places, old(rq.current).value, S.Waiting(id))
      ensures r.None? && old(rq.queue) == [] ==> rq.current == old(rq.current)
    {
      hide S.Placed, S.StatesOk, S.NoLostWake, S.StateOf, S.Busy, S.Block, S.AfterPick;
      ghost var s, w := rq.Sys(), rq.places;
      if MayWait(rq) { S.StepGood(s, w, S.Wait(id), S.ReceiveTurn(s, id).0); }
      if msgs == [] {
        WaitHere(rq);
        r := None;
      } else {
        r := Some(msgs[0]);
        msgs := msgs[1..];
        woken := woken - {rq.current.value};
        rq.ports := rq.ports[id := V()];
      }
    }
  }

  lemma PopTidy(s: S.Sys, w: S.Places, p: Pid, port: S.Port)
    requires S.Placed(s, w) && S.StatesOk(s, w) && p in s.ports && s.ports[p].waits != []
             && port.waits == s.ports[p].waits[1..]
    ensures var t := s.ports[p].waits[0];
            && S.Placed(s.(ports := s.ports[p := port]), w - {t})
               && S.StatesOk(s.(ports := s.ports[p := port]), w - {t})
            && t in w && w[t] == S.Waiting(p)
  {
    hide S.Placed;
    S.PopPlaced(s, w, p, port);
  }

  /** The current task is not in the queue. */
  lemma Running(s: S.Sys, w: S.Places, t: Tid)
    requires S.Placed(s, w) && s.rq.current == Some(t)
    ensures t !in s.rq.queue
  {
    assert S.At(w, t, S.Current);
    S.Member(w, s.rq.queue, S.Queued, t);
  }
}
