/** wait_queue.cpp and block_buffer.cpp: waiting for input and output, in every interleaving with wake-ups, timer
    ticks and switches. One wait queue and one block buffer stand for all. */
module IoProtocol {
  import opened RunList
  import opened Scheduler

  datatype Source = Queue | Block

  /** How far a thread has got with a wait: not begun or over, after start_io, registered with the waker, and after
      io_wait has taken it off the ready queue. */
  datatype Stage = Idle | Started(on: Source) | Registered(on: Source) | Blocked(on: Source)

  /** What holds of a thread at each stage. */
  ghost predicate StageOk(x: nat, stage: Stage, state: State, queue: seq<nat>, requested: bool, full: bool, waiter: int)
  {
    && (waiter == x ==> requested)
    && match stage
      case Idle => x !in queue && state != eIOWait && (waiter == x ==> full)
      case Started(_) => x !in queue && state == eIOPending && (waiter == x ==> full)
      case Registered(Queue) => (waiter == x ==> full) && state == (if x in queue then eIOPending else eReady)
      case Blocked(Queue) => (waiter == x ==> full) && state == (if x in queue then eIOWait else eReady)
      case Registered(Block) => x !in queue && waiter == x && state == (if full then eReady else eIOPending)
      case Blocked(Block) => x !in queue && waiter == x && state == (if full then eReady else eIOWait)
  }

  /** A thread that waits for the buffer, or is about to, but has been replaced as its waiter. */
  ghost predicate Forgotten(x: nat, stage: Stage, state: State, queue: seq<nat>, waiter: int)
  {
    x !in queue && waiter != x && ((stage == Registered(Block) && state == eIOPending)
      || (stage == Blocked(Block) && state == eIOWait))
  }

  ghost predicate ThreadOk(x: nat, stage: Stage, state: State, queue: seq<nat>, requested: bool, full: bool,
                           waiter: int, lost: set<nat>)
  {
    if x in lost then Forgotten(x, stage, state, queue, waiter)
    else StageOk(x, stage, state, queue, requested, full, waiter)
  }

  /** Every thread is as well when the first of the queue has been made ready and taken off it. */
  lemma Woken(y: nat, stage: Stage, state: State, queue: seq<nat>, requested: bool, full: bool, waiter: int,
              lost: set<nat>)
    requires queue != [] && Distinct(queue) && ThreadOk(y, stage, state, queue, requested, full, waiter, lost)
    ensures ThreadOk(y, stage, if y == queue[0] then eReady else state, queue[1..], requested, full, waiter, lost)
  {
    assert y in queue[1..] <==> y in queue && y != queue[0];
  }

  lemma Queued(y: nat, stage: Stage, state: State, queue: seq<nat>, requested: bool, full: bool, waiter: int,
               lost: set<nat>)
    requires y in queue && ThreadOk(y, stage, state, queue, requested, full, waiter, lost)
    ensures state != eWaiting
  {
  }

  class Kernel {
    const s: Scheduler
    var queue: seq<nat>         // threads of the wait queue
    var requested: bool         // state of the buffer
    var full: bool
    var waiter: int             // waiting_task_
    var switching: bool         // the running thread is about to give up the processor
    var stage: seq<Stage>       // where each thread is in its code
    var lost: set<nat>          // threads that nothing will wake

    ghost predicate Inv()
      reads this, s, s.ready, s.waiting, s.t.next, s.t.prev, s.t.linked, s.t.state
    {
      && s.Queues() && |stage| == s.t.state.Length && Distinct(queue)
      && (!switching && s.current != s.idle ==> Runnable(s.t.state[s.current]))
      && s.idle !in queue && waiter != s.idle && stage[s.idle] == Idle
        && (forall i :: 0 <= i < |queue| ==> queue[i] < |stage|)
      && (waiter == NIL || 0 <= waiter < |stage|) && s.idle !in lost && (forall x :: x in lost ==> x < |stage|)
      && forall x :: 0 <= x < |stage| && x != s.idle ==>
        ThreadOk(x, stage[x], s.t.state[x], queue, requested, full, waiter, lost)
    }

    constructor (n: nat, idle: nat)
      requires idle < n
      ensures Inv() && queue == [] && !full && waiter == NIL && !switching && lost == {} && fresh(s.Objects())
      ensures stage == seq(n, _ => Idle) && s.t.state.Length == n && s.current == idle == s.idle && s.ready.elems == []
        && forall i :: 0 <= i < n && i != idle ==> s.t.state[i] == eDead
    {
      s := new Scheduler(n, idle);
      queue, requested, full, waiter, switching := [], false, false, NIL, false;
      stage, lost := seq(n, _ => Idle), {};
    }

    /** start_io, on the way to a wait. */
    method Start(on: Source)
      requires Inv() && !switching && s.current != s.idle && stage[s.current] == Idle
      modifies this, s.t.state
      ensures Inv() && stage == old(stage)[s.current := Started(on)] && !switching && queue == old(queue)
        && lost == old(lost) && full == old(full) && waiter == old(waiter)
      ensures s.t.state[..] == old(s.t.state[..])[s.current := eIOPending]
    {
      hide Links, Distinct, AllPlaced, RunList.Valid;
      var x := s.current;
      ghost var state0 := s.t.state[..];
      s.StartIo();
      stage := stage[x := Started(on)];
      forall y | 0 <= y < |stage| && y != s.idle
        ensures ThreadOk(y, stage[y], s.t.state[y], queue, requested, full, waiter, lost) {
        assert ThreadOk(y, old(stage)[y], state0[y], queue, requested, full, waiter, lost);
      }
    }

    /** The running thread joins the wait queue. */
    method Join()
      requires Inv() && !switching && s.current != s.idle && stage[s.current] == Started(Queue)
      modifies this
      ensures Inv() && queue == old(queue) + [s.current] && stage == old(stage)[s.current := Registered(Queue)]
        && !switching && lost == old(lost)
    {
      hide Links, AllPlaced, RunList.Valid;
      var x := s.current;
      ghost var queue0 := queue;
      assert ThreadOk(x, stage[x], s.t.state[x], queue, requested, full, waiter, lost);
      queue := queue + [s.current];
      stage := stage[x := Registered(Queue)];
      forall y | 0 <= y < |stage| && y != s.idle
        ensures ThreadOk(y, stage[y], s.t.state[y], queue, requested, full, waiter, lost) {
        assert ThreadOk(y, old(stage)[y], s.t.state[y], queue0, requested, full, waiter, lost);
      }
    }

    /** WaitQueue::wake: the first of the queue is made ready. */
    method Wake() returns (any: bool)
      requires Inv()
      modifies this, s.ready, s.t.next, s.t.prev, s.t.linked, s.t.state
      ensures Inv() && (any <==> old(queue) != []) && stage == old(stage) && switching == old(switching)
        && lost == old(lost)
      ensures any ==>
        && queue == old(queue)[1..] && s.t.state[..] == old(s.t.state[..])[old(queue)[0] := eReady]
        && old(queue)[0] in s.ready.elems
      ensures any ==> s.ready.elems == if old(Runnable(s.t.state[queue[0]])) then old(s.ready.elems)
        else [old(queue)[0]] + old(s.ready.elems)
    {
      hide Links, AllPlaced, RunList.Valid, StageOk, Forgotten;
      if queue == [] { return false; }
      ghost var queue0, state0 := queue, s.t.state[..];
      var th := queue[0];
      assert ThreadOk(th, stage[th], s.t.state[th], queue, requested, full, waiter, lost);
      Queued(th, stage[th], s.t.state[th], queue, requested, full, waiter, lost);
      NotAsleep(th);
      LinkedIs(th);
      queue := queue[1..];
      s.MakeReady(th);
      forall y | 0 <= y < |stage| && y != s.idle
        ensures ThreadOk(y, stage[y], s.t.state[y], queue, requested, full, waiter, lost) {
        assert ThreadOk(y, stage[y], state0[y], queue0, requested, full, waiter, lost);
        Woken(y, stage[y], state0[y], queue0, requested, full, waiter, lost);
      }
      InReady(th);
      return true;
    }

    /** Buffer::wait, between start_io and io_wait: nothing to wait for if the buffer is full; otherwise it is
        requested, and the running thread becomes its waiter. A thread that already waited for it is forgotten. */
    method Request()
      requires Inv() && !switching && s.current != s.idle && stage[s.current] == Started(Block)
      modifies this
      ensures Inv() && full == old(full) && queue == old(queue) && !switching
      ensures stage == old(stage)[s.current := if full then Idle else Registered(Block)]
        && (if full then waiter == old(waiter) else requested && waiter == s.current)
      ensures lost == old(lost) + if old(full || waiter == NIL) then {} else {old(waiter)}
      ensures lost == old(lost) <==> old(full || waiter == NIL)
    {
      hide Links, Distinct, AllPlaced, RunList.Valid;
      var x := s.current;
      ghost var requested0, waiter0, lost0 := requested, waiter, lost;
      assert ThreadOk(x, stage[x], s.t.state[x], queue, requested, full, waiter, lost);
      if full {
        stage := stage[x := Idle];
      } else {
        if waiter != NIL {
          assert ThreadOk(waiter, stage[waiter], s.t.state[waiter], queue, requested, full, waiter, lost);
          lost := lost + {waiter};
        }
        requested := true;
        waiter := s.current;
        stage := stage[x := Registered(Block)];
      }
      forall y | 0 <= y < |stage| && y != s.idle
        ensures ThreadOk(y, stage[y], s.t.state[y], queue, requested, full, waiter, lost) {
        assert ThreadOk(y, old(stage)[y], s.t.state[y], queue, requested0, full, waiter0, lost0);
      }
    }

    /** Buffer::set_full, when the device has fulfilled the request: the waiter is made ready. */
    method SetFull()
      requires Inv() && requested && !full
      modifies this, s.ready, s.t.next, s.t.prev, s.t.linked, s.t.state
      ensures Inv() && full && stage == old(stage) && switching == old(switching) && queue == old(queue)
        && lost == old(lost)
      ensures waiter == old(waiter)
        && (waiter != NIL ==> s.t.state[..] == old(s.t.state[..])[waiter := eReady] && waiter in s.ready.elems)
    {
      hide Links, Distinct, AllPlaced, RunList.Valid;
      ghost var state0 := s.t.state[..];
      if waiter != NIL {
        assert ThreadOk(waiter, stage[waiter], s.t.state[waiter], queue, requested, full, waiter, lost);
        NotAsleep(waiter);
      }
      full := true;
      if waiter != NIL {
        s.MakeReady(waiter);
        InReady(waiter);
      }
      forall y | 0 <= y < |stage| && y != s.idle
        ensures ThreadOk(y, stage[y], s.t.state[y], queue, requested, full, waiter, lost) {
        assert ThreadOk(y, stage[y], state0[y], queue, requested, false, waiter, lost);
      }
    }

    /** io_wait: blocks if and only if the wake-up has not come yet. */
    method Wait() returns (blocked: bool)
      requires Inv() && !switching && s.current != s.idle && stage[s.current].Registered?
      modifies this, s.ready, s.t.next, s.t.prev, s.t.linked, s.t.state
      ensures Inv() && queue == old(queue) && full == old(full) && waiter == old(waiter) && switching == blocked
        && lost == old(lost) && requested == old(requested)
      ensures blocked <==> s.current in lost || if old(stage)[s.current].on == Queue then s.current in queue else !full
      ensures stage == old(stage)[s.current := if blocked then Blocked(old(stage)[s.current].on) else Idle]
      ensures s.ready.elems == if blocked then Minus(old(s.ready.elems), s.current) else old(s.ready.elems)
      ensures blocked ==> s.t.state[..] == old(s.t.state[..])[s.current := eIOWait]
    {
      hide Links, Distinct, AllPlaced, RunList.Valid;
      var x := s.current;
      ghost var state0 := s.t.state[..];
      assert ThreadOk(x, stage[x], s.t.state[x], queue, requested, full, waiter, lost);
      blocked := s.IoWait();
      switching := blocked;
      stage := stage[x := if blocked then Blocked(stage[x].on) else Idle];
      forall y | 0 <= y < |stage| && y != s.idle
        ensures ThreadOk(y, stage[y], s.t.state[y], queue, requested, full, waiter, lost) {
        assert ThreadOk(y, old(stage)[y], state0[y], queue, requested, full, waiter, lost);
      }
    }

    /** A thread that runs again after io_wait: if it waited for the buffer, the buffer is full. */
    method Resume()
      requires Inv() && !switching && s.current != s.idle && stage[s.current].Blocked?
      modifies this
      ensures Inv() && stage == old(stage)[s.current := Idle] && (old(stage)[s.current].on == Block ==> full)
        && !switching && lost == old(lost) && s.current !in lost
    {
      hide Links, Distinct, AllPlaced, RunList.Valid;
      var x := s.current;
      assert ThreadOk(x, stage[x], s.t.state[x], queue, requested, full, waiter, lost);
      stage := stage[x := Idle];
      forall y | 0 <= y < |stage| && y != s.idle
        ensures ThreadOk(y, stage[y], s.t.state[y], queue, requested, full, waiter, lost) {
        assert ThreadOk(y, old(stage)[y], s.t.state[y], queue, requested, full, waiter, lost);
      }
    }

    /** switch_thread, of a thread that blocks or yields, or after a tick. */
    method Switch()
      requires Inv()
      modifies this, s, s.ready, s.t.next, s.t.prev, s.t.linked
      ensures Inv() && !switching && stage == old(stage) && queue == old(queue) && lost == old(lost)
        && full == old(full) && waiter == old(waiter) && requested == old(requested)
      ensures (s.ready.elems, s.current) == Switched(old(s.ready.elems), old(s.current), s.idle)
    {
      hide Links, Distinct, AllPlaced, RunList.Valid;
      var switched := s.SwitchThread();
      if s.current != s.idle {
        InReady(s.current);
      }
      switching := false;
    }

    /** on_tick: sleepers whose time has come are made ready, and then there is a switch. */
    method OnTick(now: nat)
      requires Inv()
      modifies this, s, s.ready, s.waiting, s.t.next, s.t.prev, s.t.linked, s.t.state
      ensures Inv() && stage == old(stage) && queue == old(queue) && lost == old(lost)
    {
      hide Links, Distinct, AllPlaced, RunList.Valid, Asleep, Awake, Backwards;
      ghost var state0, waiting0 := s.t.state[..], s.waiting.elems;
      forall y | 0 <= y < |stage| && y != s.idle ensures y in waiting0 ==> state0[y] == eWaiting { OnlyAsleep(y); }
      IdleUnlinked();
      var schedule := s.Tick(now);
      forall y | 0 <= y < |stage| && y != s.idle
        ensures ThreadOk(y, stage[y], s.t.state[y], queue, requested, full, waiter, lost) {
        AwakeIs(waiting0, s.t.alarmAt[..], now, y);
        assert ThreadOk(y, stage[y], state0[y], queue, requested, full, waiter, lost);
      }
      if !switching && s.current != s.idle { AwakeIs(waiting0, s.t.alarmAt[..], now, s.current); }
      if schedule { Switch(); }
    }

    lemma OnlyAsleep(x: nat)
      requires Inv() && x < |stage| && x != s.idle
      ensures x in s.waiting.elems ==> s.t.state[x] == eWaiting
    {
      assert Placed(x, s.idle, s.ready.elems, s.waiting.elems, s.t.linked[..], s.t.state[..]);
    }

    lemma IdleUnlinked()
      requires Inv()
      ensures s.idle !in s.waiting.elems
    {
      assert Placed(s.idle, s.idle, s.ready.elems, s.waiting.elems, s.t.linked[..], s.t.state[..]);
    }

    /** sleep, up to its switch. */
    method Sleep(secs: nat, now: nat)
      requires Inv() && !switching && s.current != s.idle && stage[s.current] == Idle
      modifies this, s.ready, s.waiting, s.t.next, s.t.prev, s.t.linked, s.t.state, s.t.alarmAt
      ensures Inv() && switching && stage == old(stage) && s.t.state[..] == old(s.t.state[..])[s.current := eWaiting]
        && lost == old(lost)
    {
      hide Links, Distinct, AllPlaced, RunList.Valid, Minus;
      ghost var state0 := s.t.state[..];
      s.Sleep(secs, now);
      switching := true;
      forall y | 0 <= y < |stage| && y != s.idle
        ensures ThreadOk(y, stage[y], s.t.state[y], queue, requested, full, waiter, lost) {
        assert ThreadOk(y, stage[y], state0[y], queue, requested, full, waiter, lost);
      }
    }

    /** A new thread is made ready. */
    method Spawn(th: nat)
      requires Inv() && th < |stage| && th != s.idle && s.t.state[th] == eDead
      modifies s.ready, s.t.next, s.t.prev, s.t.linked, s.t.state
      ensures Inv() && s.t.state[..] == old(s.t.state[..])[th := eReady] && s.ready.elems == [th] + old(s.ready.elems)
    {
      hide Links, Distinct, AllPlaced, RunList.Valid;
      ghost var state0 := s.t.state[..];
      NotAsleep(th);
      NotLinkedYet(th);
      assert ThreadOk(th, stage[th], s.t.state[th], queue, requested, full, waiter, lost);
      s.MakeReady(th);
      forall y | 0 <= y < |stage| && y != s.idle
        ensures ThreadOk(y, stage[y], s.t.state[y], queue, requested, full, waiter, lost) {
        assert ThreadOk(y, stage[y], state0[y], queue, requested, full, waiter, lost);
      }
    }

    lemma NotLinkedYet(x: nat)
      requires Inv() && x < |stage| && x != s.idle && s.t.state[x] == eDead
      ensures !s.t.linked[x]
    {
      assert Placed(x, s.idle, s.ready.elems, s.waiting.elems, s.t.linked[..], s.t.state[..]);
    }

    /** exit, up to its switch: the running thread goes off the ready queue before it dies. */
    method Exit()
      requires Inv() && !switching && s.current != s.idle && stage[s.current] == Idle
      modifies this, s.ready, s.t.next, s.t.prev, s.t.linked, s.t.state
      ensures Inv() && switching && stage == old(stage) && s.t.state[..] == old(s.t.state[..])[s.current := eDead]
        && queue == old(queue) && lost == old(lost)
      ensures s.ready.elems == Minus(old(s.ready.elems), s.current)
    {
      hide Links, Distinct, AllPlaced, RunList.Valid, Minus;
      ghost var state0 := s.t.state[..];
      s.OffReady(s.current);
      s.SetState(s.current, eDead);
      switching := true;
      forall y | 0 <= y < |stage| && y != s.idle
        ensures ThreadOk(y, stage[y], s.t.state[y], queue, requested, full, waiter, lost) {
        assert ThreadOk(y, stage[y], state0[y], queue, requested, full, waiter, lost);
      }
    }

    /** Process::exit, for a thread other than the running one: it dies wherever it is in its code. All is well if and
        only if it is not about to wait for input or output, and not waiting unless it is forgotten: in the first case
        it stays on the ready queue, and in the second registered with its waker. */
    method Kill(th: nat)
      requires Inv() && th < |stage| && th != s.idle && th != s.current
      modifies this, s.ready, s.waiting, s.t.next, s.t.prev, s.t.linked, s.t.state
      ensures stage == old(stage)[th := Idle] && s.t.state[..] == old(s.t.state[..])[th := eDead]
      ensures queue == old(queue) && waiter == old(waiter) && full == old(full) && requested == old(requested)
        && switching == old(switching) && lost == old(lost) - {th}
      ensures Inv() <==> old(Killable(th))
      ensures old(s.t.state[th]) == eIOPending ==> s.ready.elems == old(s.ready.elems) && th in s.ready.elems
      ensures old(s.t.state[th]) == eIOWait ==> s.Queues() && s.ready.elems == old(s.ready.elems)
      ensures old(s.t.state[th]) == eIOWait && th !in old(lost) ==> th in queue || (waiter == th && requested && !full)
    {
      hide Links, Distinct, AllPlaced, RunList.Valid, Minus;
      ghost var state0 := s.t.state[..];
      assert ThreadOk(th, stage[th], s.t.state[th], queue, requested, full, waiter, lost);
      ghost var lost0, ok := lost, Killable(th);
      if s.t.state[th] == eIOWait { WaitingOff(th); }
      s.Die(th);
      stage, lost := stage[th := Idle], lost - {th};
      assert ok <==> s.Queues() && ThreadOk(th, stage[th], s.t.state[th], queue, requested, full, waiter, lost);
      forall y | 0 <= y < |stage| && y != s.idle && y != th
        ensures ThreadOk(y, stage[y], s.t.state[y], queue, requested, full, waiter, lost) {
        assert ThreadOk(y, old(stage)[y], state0[y], queue, requested, full, waiter, lost0);
      }
    }

    /** A forgotten thread that has been taken off the ready queue. */
    predicate Stranded(x: nat)
      reads this
    {
      x in lost && x < |stage| && stage[x] == Blocked(Block)
    }

    /** It waits, and nothing will wake it. */
    lemma StrandedWaits(x: nat)
      requires Inv() && Stranded(x)
      ensures s.t.state[x] == eIOWait && x !in s.ready.elems && x !in s.waiting.elems && x !in queue && waiter != x
    {
      assert ThreadOk(x, stage[x], s.t.state[x], queue, requested, full, waiter, lost);
      NoLostWakeup(x);
    }

    /** It can be killed: it neither is about to wait nor waits for input or output, or is forgotten. */
    predicate Killable(th: nat)
      requires th < s.t.state.Length
      reads this, s.t.state
    {
      s.t.state[th] != eIOPending && (s.t.state[th] != eIOWait || th in lost)
    }

    lemma WaitingOff(x: nat)
      requires Inv() && x < |stage| && x != s.idle && s.t.state[x] == eIOWait
      ensures (x in queue || (waiter == x && requested && !full) || x in lost)
        && Minus(s.ready.elems, x) == s.ready.elems
    {
      hide Minus;
      NoLostWakeup(x);
      MinusNone(s.ready.elems, x);
    }

    lemma LinkedIs(x: nat)
      requires Inv() && x < |stage| && x != s.idle && s.t.state[x] != eWaiting
      ensures s.t.linked[x] <==> Runnable(s.t.state[x])
    {
      assert Placed(x, s.idle, s.ready.elems, s.waiting.elems, s.t.linked[..], s.t.state[..]);
    }

    lemma NotAsleep(x: nat)
      requires Inv() && x < |stage| && x != s.idle && s.t.state[x] != eWaiting
      ensures x !in s.waiting.elems
    {
      assert Placed(x, s.idle, s.ready.elems, s.waiting.elems, s.t.linked[..], s.t.state[..]);
    }

    lemma InReady(x: nat)
      requires s.Queues() && x < s.t.state.Length && x != s.idle
      ensures x in s.ready.elems <==> Runnable(s.t.state[x])
    {
      assert Placed(x, s.idle, s.ready.elems, s.waiting.elems, s.t.linked[..], s.t.state[..]);
    }

    /** No other wake-up is lost: a thread off the ready queue for input or output is still registered with its waker,
        exactly unless it is forgotten. */
    lemma NoLostWakeup(x: nat)
      requires Inv() && x < |stage| && x != s.idle && s.t.state[x] == eIOWait
      ensures x in queue || (waiter == x && requested && !full) <==> x !in lost
      ensures x !in s.ready.elems && x !in s.waiting.elems
    {
      assert ThreadOk(x, stage[x], s.t.state[x], queue, requested, full, waiter, lost);
      assert Placed(x, s.idle, s.ready.elems, s.waiting.elems, s.t.linked[..], s.t.state[..]);
    }
  }

  datatype Action = DoStart(on: Source) | DoJoin | DoRequest | DoWait | DoResume | DoWake | DoFill | DoSwitch
    | DoTick(now: nat) | DoSleep(secs: nat, at: nat) | DoSpawn(th: nat) | DoExit | DoKill(th: nat)

  /** Every interleaving: whatever comes next, as far as it can happen, the invariant holds all along, exactly until a
      thread is killed that is about to wait for input or output or waiting. A thread that is stranded stays so until it
      is killed. */
  method Run(k: Kernel, actions: seq<Action>) returns (done: nat)
    requires k.Inv()
    modifies k, k.s.Objects()
    ensures done <= |actions| && (k.Inv() <==> done == |actions|)
    ensures done < |actions| ==> actions[done].DoKill?
    ensures forall x: nat :: old(k.Stranded(x)) && DoKill(x) !in actions ==> k.Stranded(x)
  {
    hide Kernel.Inv, Kernel.Stranded;
    done := 0;
    while done < |actions|
      invariant done <= |actions| && k.Inv()
      invariant forall x: nat :: old(k.Stranded(x)) && DoKill(x) !in actions ==> k.Stranded(x)
    {
      var ok := Act(k, actions[done]);
      if !ok { return; }
      done := done + 1;
    }
  }

  /** One step; not `ok` if it kills a thread in the wrong moment. A thread is forgotten exactly if another asks for the
      same buffer before it is full. */
  method Act(k: Kernel, a: Action) returns (ok: bool)
    requires k.Inv()
    modifies k, k.s.Objects()
    ensures ok <==> k.Inv()
    ensures !ok ==> a.DoKill? && a.th < k.s.t.state.Length && old(k.s.t.state[a.th] in {eIOPending, eIOWait})
    ensures forall x: nat :: old(k.Stranded(x)) && a != DoKill(x) ==> k.Stranded(x)
    ensures forall x :: x in k.lost && x !in old(k.lost) ==>
      a.DoRequest? && old(!k.full && k.waiter == x && k.s.current != x)
  {
    hide Links, Distinct, AllPlaced, RunList.Valid, StageOk;
    var free := !k.switching && k.s.current != k.s.idle;
    var at := if free then k.stage[k.s.current] else Idle;
    ok := true;
    match a
    case DoStart(on) => { if free && at == Idle { k.Start(on); } }
    case DoJoin => { if free && at == Started(Queue) { k.Join(); } }
    case DoRequest => { if free && at == Started(Block) { k.Request(); } }
    case DoWait => { if free && at.Registered? { var blocked := k.Wait(); } }
    case DoResume => { if free && at.Blocked? { k.Resume(); } }
    case DoWake => { var any := k.Wake(); }
    case DoFill => { if k.requested && !k.full { k.SetFull(); } }
    case DoSwitch => { k.Switch(); }
    case DoTick(now) => { k.OnTick(now); }
    case DoSleep(secs, now) => { if free && at == Idle { k.Sleep(secs, now); } }
    case DoSpawn(th) => { if th < k.s.t.state.Length && th != k.s.idle && k.s.t.state[th] == eDead { k.Spawn(th); } }
    case DoExit => { if free && at == Idle { k.Exit(); } }
    case DoKill(th) =>
      if th < k.s.t.state.Length && th != k.s.idle && th != k.s.current {
        ok := k.Killable(th);
        k.Kill(th);
      }
  }

  /** Two threads run, the first of them at the moment. */
  method TwoThreads() returns (k: Kernel)
    ensures fresh(k) && fresh(k.s.Objects()) && k.Inv() && !k.switching && k.s.idle == 0 && k.s.current == 1
      && k.queue == [] && k.waiter == NIL && !k.full && k.lost == {}
    ensures k.s.ready.elems == [2, 1] && |k.stage| == 3 == k.s.t.state.Length && k.stage[1] == k.stage[2] == Idle
    ensures k.s.t.state[1] == k.s.t.state[2] == eReady
  {
    hide Links, Distinct, AllPlaced, RunList.Valid, StageOk, Scheduler.Queues, Kernel.Inv;
    k := new Kernel(3, 0);
    k.Spawn(2);
    k.Spawn(1);
    assert [1] + ([2] + []) == [1, 2];
    k.Switch();
    assert [1, 2][1..] + [1] == [2, 1];
  }

  /** The first waits for input; the switch to the second is still to come. */
  method OneWaits() returns (k: Kernel)
    ensures fresh(k) && fresh(k.s.Objects()) && k.Inv() && k.switching && k.s.idle == 0 && k.s.current == 1
      && k.queue == [1]
    ensures k.s.ready.elems == [2] && |k.stage| == 3 == k.s.t.state.Length && k.stage[1] == Blocked(Queue)
      && k.stage[2] == Idle
    ensures k.s.t.state[1] == eIOWait && k.s.t.state[2] == eReady
  {
    hide Links, Distinct, AllPlaced, RunList.Valid, StageOk, Minus, Scheduler.Queues, Kernel.Inv;
    k := TwoThreads();
    k.Start(Queue);
    k.Join();
    assert [] + [1] == [1];
    var blocked := k.Wait();
    OneLeft();
  }

  lemma OneLeft()
    ensures Minus([2, 1], 1) == [2] && Minus([1, 2], 2) == [1] && Minus([2], 2) == []
  {
    assert [2, 1][1..] == [1] && [1, 2][1..] == [2];
  }

  /** A thread that is woken between io_wait and its switch stays at the head of the ready queue: from then on its
      yields run no other thread. */
  method Starvation() returns (k: Kernel)
    ensures k.Inv() && !k.switching && k.s.current == 1 && k.s.ready.elems == [1, 2] && |k.stage| == 3
      && k.stage[1] == Idle
    ensures forall n :: Yielded(k.s.ready.elems, k.s.current, k.s.idle, n).1 == 1
  {
    hide Links, Distinct, AllPlaced, RunList.Valid, StageOk, Minus, Yielded, Scheduler.Queues, Kernel.Inv;
    k := OneWaits();
    var any := k.Wake();
    assert [1] + [2] == [1, 2];
    k.Switch();
    k.Resume();
    forall n: nat ensures Yielded([1, 2], 1, 0, n).1 == 1 { Stuck([1, 2], 1, 0, n); }
  }

  /** The two are of one process. The first has announced a wait when the second gets its turn and exits: the first is
      dead then, but the next to run. */
  method DeadRuns() returns (k: Kernel)
    ensures k.s.t.state.Length == 3 && k.s.t.state[1] == eDead && !k.Inv()
    ensures Switched(k.s.ready.elems, k.s.current, k.s.idle).1 == 1
  {
    hide Links, Distinct, AllPlaced, RunList.Valid, StageOk, Minus, Scheduler.Queues, Kernel.Inv;
    k := TwoThreads();
    k.Start(Queue);
    k.Switch();
    assert [2, 1][1..] + [2] == [1, 2];
    k.Exit();
    OneLeft();
    k.Kill(1);
  }

  /** The first waits for input when the second exits: it is dead then, but ready again once the input comes. */
  method DeadWakes() returns (k: Kernel, dead: State)
    ensures dead == eDead && k.s.t.state.Length == 3 && k.s.t.state[1] == eReady && k.s.ready.elems == [1]
  {
    hide Links, Distinct, AllPlaced, RunList.Valid, StageOk, Minus, Scheduler.Queues, Kernel.Inv;
    k := OneWaits();
    k.Switch();
    assert [2][1..] + [2] == [2];
    k.Exit();
    OneLeft();
    k.Kill(1);
    dead := k.s.t.state[1];
    assert k.queue == [1];
    Unlinked(k.s, 1);
    k.s.MakeReady(1);
    assert [1] + [] == [1];
  }

  /** Both wait for the same buffer, and it is filled. */
  method TwoReaders() returns (k: Kernel)
    ensures fresh(k) && fresh(k.s.Objects()) && k.Inv() && k.full && k.Stranded(1) && k.waiter == 2
      && k.s.t.state.Length == 3 && k.s.t.state[2] == eReady
  {
    hide Links, Distinct, AllPlaced, RunList.Valid, ThreadOk, Minus, Scheduler.Queues, Kernel.Inv;
    k := TwoThreads();
    k.Start(Block);
    k.Request();
    var blocked := k.Wait();
    OneLeft();
    k.Switch();
    assert [2][1..] + [2] == [2];
    k.Start(Block);
    k.Request();
    blocked := k.Wait();
    k.SetFull();
  }

  /** Whatever happens then, the first never runs again, unless it is killed. */
  method NeverWoken(actions: seq<Action>) returns (k: Kernel, done: nat)
    ensures done == |actions| && DoKill(1) !in actions ==>
      k.s.t.state.Length == 3 && k.s.t.state[1] == eIOWait && 1 !in k.s.ready.elems
  {
    hide Kernel.Inv, Kernel.Stranded;
    k := TwoReaders();
    done := Run(k, actions);
    if done == |actions| && DoKill(1) !in actions { k.StrandedWaits(1); }
  }

  lemma Unlinked(s: Scheduler, x: nat)
    requires s.Queues() && x < s.t.state.Length && s.t.state[x] == eDead && x != s.idle
    ensures !s.t.linked[x] && x !in s.waiting.elems
  {
    assert Placed(x, s.idle, s.ready.elems, s.waiting.elems, s.t.linked[..], s.t.state[..]);
  }
}
