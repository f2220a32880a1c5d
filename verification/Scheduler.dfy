/** scheduler.cpp: the ready and the waiting queue. Each synchronized section is one step. */
module Scheduler {
  import opened RunList

  const SLICE_HZ := 100

  predicate Runnable(s: State) { s == eReady || s == eIOPending }

  /** A thread is on the queue its state calls for, and on no other; the idle thread is on none. */
  ghost predicate Placed(i: nat, idle: nat, ready: seq<nat>, waiting: seq<nat>, linked: seq<bool>, state: seq<State>)
    requires i < |linked| && i < |state|
  {
    && (linked[i] <==> i in ready || i in waiting)
    && if i == idle then !linked[i]
      else (i in ready <==> Runnable(state[i])) && (i in waiting <==> state[i] == eWaiting)
  }

  ghost predicate AllPlaced(idle: nat, ready: seq<nat>, waiting: seq<nat>, linked: seq<bool>, state: seq<State>)
  {
    |linked| == |state| && forall i :: 0 <= i < |linked| ==> Placed(i, idle, ready, waiting, linked, state)
  }

  /** All threads but one are placed, and that one is on no queue. */
  ghost predicate PlacedBut(th: nat, idle: nat, ready: seq<nat>, waiting: seq<nat>, linked: seq<bool>,
                            state: seq<State>)
  {
    && |linked| == |state| && th < |linked| && th != idle && !linked[th] && th !in ready && th !in waiting
    && forall i :: 0 <= i < |linked| && i != th ==> Placed(i, idle, ready, waiting, linked, state)
  }

  /** Links outside `s` do not change what is linked there. */
  lemma LinksKept(w: seq<nat>, s: seq<nat>, next: seq<int>, prev: seq<int>, linked: seq<bool>, t: Threads, e: nat)
    requires Links(w, next, prev, linked) && t.Valid() && Elsewhere(t, next, prev, s) && |linked| == t.linked.Length
      && e < |linked|
    requires forall i :: 0 <= i < |w| ==> w[i] !in s && w[i] != e
    requires forall i :: 0 <= i < |linked| && i != e ==> t.linked[i] == linked[i]
    ensures Links(w, t.next[..], t.prev[..], t.linked[..])
  {
    var next1, prev1, linked1 := t.next[..], t.prev[..], t.linked[..];
    forall i | 0 <= i < |w| ensures LinkOk(w, i, next1, prev1, linked1) {
      assert LinkOk(w, i, next, prev, linked);
    }
  }

  /** A list as it was, when links elsewhere have changed. */
  ghost predicate Was(l: RunList, next: seq<int>, prev: seq<int>, linked: seq<bool>)
    reads l
  {
    && l.count == |l.elems| && Distinct(l.elems) && Links(l.elems, next, prev, linked)
    && l.head == At(l.elems, 0) && l.tail == At(l.elems, |l.elems| - 1)
  }

  lemma StillValid(l: RunList, s: seq<nat>, next: seq<int>, prev: seq<int>, linked: seq<bool>, e: nat)
    requires Was(l, next, prev, linked) && l.t.Valid() && Elsewhere(l.t, next, prev, s) && |linked| == l.t.linked.Length
      && e < |linked|
    requires forall i :: 0 <= i < |l.elems| ==> l.elems[i] !in s && l.elems[i] != e
    requires forall i :: 0 <= i < |linked| && i != e ==> l.t.linked[i] == linked[i]
    ensures l.Valid()
  {
    hide Distinct;
    LinksKept(l.elems, s, next, prev, linked, l.t, e);
  }

  class Scheduler {
    const t: Threads
    const ready: RunList
    const waiting: RunList
    const idle: nat
    var current: nat

    ghost predicate Queues()
      reads this, ready, waiting, t.next, t.prev, t.linked, t.state
    {
      && ready.t == t == waiting.t && ready != waiting && ready.Valid() && waiting.Valid()
      && idle < t.state.Length && current < t.state.Length
      && AllPlaced(idle, ready.elems, waiting.elems, t.linked[..], t.state[..])
    }

    ghost function Objects(): set<object> { {this, ready, waiting, t.next, t.prev, t.linked, t.state, t.alarmAt} }

    ghost predicate QueuesBut(th: nat)
      reads this, ready, waiting, t.next, t.prev, t.linked, t.state
    {
      && ready.t == t == waiting.t && ready != waiting && ready.Valid() && waiting.Valid()
      && idle < t.state.Length && current < t.state.Length
      && PlacedBut(th, idle, ready.elems, waiting.elems, t.linked[..], t.state[..])
    }

    constructor (n: nat, idle: nat)
      requires idle < n
      ensures Queues() && ready.elems == [] == waiting.elems && current == idle == this.idle && t.state.Length == n
      ensures fresh(Objects()) && forall i :: 0 <= i < n && i != idle ==> t.state[i] == eDead
    {
      var threads := new Threads(n);
      t := threads;
      ready := new RunList(threads);
      waiting := new RunList(threads);
      this.idle, current := idle, idle;
      new;
      t.state[idle] := eReady;
    }

    /** make_ready: to the front of the ready queue, unless it is on a queue already. All is well if and only if the
        thread is not on the waiting queue: there it would stay. */
    method MakeReady(th: nat)
      requires (Queues() || QueuesBut(th)) && th < t.state.Length && th != idle
      modifies ready, t.next, t.prev, t.linked, t.state
      ensures t.state[..] == old(t.state[..])[th := eReady] && waiting.elems == old(waiting.elems)
      ensures ready.elems == if old(t.linked[th]) then old(ready.elems) else [th] + old(ready.elems)
      ensures Queues() <==> th !in old(waiting.elems)
    {
      hide Links, Distinct;
      ghost var next, prev, linked, state0, ready0 := t.next[..], t.prev[..], t.linked[..], t.state[..], ready.elems;
      assert Queues() ==> Placed(th, idle, ready0, waiting.elems, linked, state0);
      t.state[th] := eReady;
      ready.Prepend(th);
      if th in waiting.elems {
        assert !Placed(th, idle, ready.elems, waiting.elems, t.linked[..], t.state[..]);
      } else {
        AfterReady(th, next, prev, linked, ready0, state0);
      }
    }

    lemma AfterReady(th: nat, next: seq<int>, prev: seq<int>, linked: seq<bool>, ready0: seq<nat>, state0: seq<State>)
      requires th < t.state.Length && th != idle && idle < t.state.Length && current < t.state.Length
        && ready.t == t == waiting.t && ready != waiting
      requires ready.Valid() && Was(waiting, next, prev, linked) && |state0| == |linked| == t.state.Length
        && th !in waiting.elems
      requires forall i :: 0 <= i < |linked| && i != th ==> Placed(i, idle, ready0, waiting.elems, linked, state0)
      requires ready.elems == (if linked[th] then ready0 else [th] + ready0) && t.linked[..] == linked[th := true]
        && (linked[th] ==> th in ready0)
      requires Elsewhere(t, next, prev, ready0 + [th]) && t.state[..] == state0[th := eReady]
      ensures Queues()
    {
      hide Links, Distinct;
      InTable(waiting.elems, next, prev, linked);
      forall i | 0 <= i < |waiting.elems| ensures waiting.elems[i] !in ready0 + [th] && waiting.elems[i] != th {
        assert Placed(waiting.elems[i], idle, ready0, waiting.elems, linked, state0);
      }
      StillValid(waiting, ready0 + [th], next, prev, linked, th);
      forall i | 0 <= i < t.linked.Length
        ensures Placed(i, idle, ready.elems, waiting.elems, t.linked[..], t.state[..]) {
        if i != th { assert Placed(i, idle, ready0, waiting.elems, linked, state0); }
      }
    }

    /** make_wait: to the front of the waiting queue. */
    method MakeWait(th: nat)
      requires QueuesBut(th)
      modifies waiting, t.next, t.prev, t.linked, t.state
      ensures Queues() && t.state[..] == old(t.state[..])[th := eWaiting] && waiting.elems == [th] + old(waiting.elems)
      ensures ready.elems == old(ready.elems)
    {
      hide Links, Distinct;
      ghost var next, prev, linked, state0, waiting0 :=
        t.next[..], t.prev[..], t.linked[..], t.state[..], waiting.elems;
      t.state[th] := eWaiting;
      waiting.Prepend(th);
      InTable(ready.elems, next, prev, linked);
      forall i | 0 <= i < |ready.elems| ensures ready.elems[i] !in waiting0 + [th] && ready.elems[i] != th {
        assert Placed(ready.elems[i], idle, ready.elems, waiting0, linked, state0);
      }
      StillValid(ready, waiting0 + [th], next, prev, linked, th);
      forall i | 0 <= i < t.linked.Length
        ensures Placed(i, idle, ready.elems, waiting.elems, t.linked[..], t.state[..]) {
        if i != th { assert Placed(i, idle, ready.elems, waiting0, linked, state0); }
      }
    }

    /** A thread goes off the ready queue. */
    method OffReady(th: nat)
      requires Queues() && th < t.state.Length && th != idle && t.state[th] != eWaiting
      modifies ready, t.next, t.prev, t.linked
      ensures QueuesBut(th) && waiting.elems == old(waiting.elems) && ready.elems == Minus(old(ready.elems), th)
    {
      hide Links, Distinct, Minus;
      ghost var next, prev, linked, ready0 := t.next[..], t.prev[..], t.linked[..], ready.elems;
      assert Placed(th, idle, ready0, waiting.elems, linked, t.state[..]);
      ready.Unlink(th);
      MinusIs(ready0, th);
      InTable(waiting.elems, next, prev, linked);
      forall i | 0 <= i < |waiting.elems| ensures waiting.elems[i] !in ready0 && waiting.elems[i] != th {
        assert Placed(waiting.elems[i], idle, ready0, waiting.elems, linked, t.state[..]);
      }
      StillValid(waiting, ready0, next, prev, linked, th);
      forall i | 0 <= i < t.linked.Length && i != th
        ensures Placed(i, idle, ready.elems, waiting.elems, t.linked[..], t.state[..]) {
        assert Placed(i, idle, ready0, waiting.elems, linked, t.state[..]);
        MinusHas(ready0, th, i);
      }
    }

    /** A thread goes off the waiting queue. */
    method OffWaiting(th: nat)
      requires Queues() && th < t.state.Length && th != idle && !Runnable(t.state[th])
      modifies waiting, t.next, t.prev, t.linked
      ensures QueuesBut(th) && ready.elems == old(ready.elems) && waiting.elems == Minus(old(waiting.elems), th)
    {
      hide Links, Distinct, Minus;
      ghost var next, prev, linked, waiting0 := t.next[..], t.prev[..], t.linked[..], waiting.elems;
      assert Placed(th, idle, ready.elems, waiting0, linked, t.state[..]);
      waiting.Unlink(th);
      MinusIs(waiting0, th);
      InTable(ready.elems, next, prev, linked);
      forall i | 0 <= i < |ready.elems| ensures ready.elems[i] !in waiting0 && ready.elems[i] != th {
        assert Placed(ready.elems[i], idle, ready.elems, waiting0, linked, t.state[..]);
      }
      StillValid(ready, waiting0, next, prev, linked, th);
      forall i | 0 <= i < t.linked.Length && i != th
        ensures Placed(i, idle, ready.elems, waiting.elems, t.linked[..], t.state[..]) {
        assert Placed(i, idle, ready.elems, waiting0, linked, t.state[..]);
        MinusHas(waiting0, th, i);
      }
    }

    /** A thread that is on no queue may be in any state that calls for none. */
    method SetState(th: nat, st: State)
      requires QueuesBut(th) && !Runnable(st) && st != eWaiting
      modifies t.state
      ensures Queues() && t.state[..] == old(t.state[..])[th := st]
    {
      hide Links, Distinct;
      ghost var state0 := t.state[..];
      t.state[th] := st;
      forall i | 0 <= i < t.linked.Length
        ensures Placed(i, idle, ready.elems, waiting.elems, t.linked[..], t.state[..]) {
        if i != th { assert Placed(i, idle, ready.elems, waiting.elems, t.linked[..], state0); }
      }
    }

    /** start_io: the running thread announces that it is going to wait. */
    method StartIo()
      requires Queues() && (current != idle ==> Runnable(t.state[current]))
      modifies t.state
      ensures Queues() && t.state[..] == old(t.state[..])[current := eIOPending]
    {
      hide Links, Distinct;
      ghost var state0 := t.state[..];
      t.state[current] := eIOPending;
      forall i | 0 <= i < t.linked.Length
        ensures Placed(i, idle, ready.elems, waiting.elems, t.linked[..], t.state[..]) {
        assert Placed(i, idle, ready.elems, waiting.elems, t.linked[..], state0);
      }
    }

    /** io_wait: the running thread goes off the ready queue, unless it has been woken since start_io. */
    method IoWait() returns (blocked: bool)
      requires Queues() && current != idle
      modifies ready, t.next, t.prev, t.linked, t.state
      ensures Queues() && waiting.elems == old(waiting.elems) && (blocked <==> old(t.state[current]) == eIOPending)
      ensures !blocked ==> t.state[..] == old(t.state[..]) && ready.elems == old(ready.elems)
      ensures blocked ==>
        t.state[..] == old(t.state[..])[current := eIOWait] && ready.elems == Minus(old(ready.elems), current)
    {
      if t.state[current] != eIOPending { return false; }
      OffReady(current);
      SetState(current, eIOWait);
      return true;
    }

    /** sleep: the running thread goes from the ready to the waiting queue until its alarm. */
    method Sleep(secs: nat, now: nat)
      requires Queues() && current != idle && t.state[current] != eWaiting
      modifies ready, waiting, t.next, t.prev, t.linked, t.state, t.alarmAt
      ensures Queues() && t.state[..] == old(t.state[..])[current := eWaiting]
      ensures t.alarmAt[..] == old(t.alarmAt[..])[current := now + secs * SLICE_HZ]
      ensures ready.elems == Minus(old(ready.elems), current) && waiting.elems == [current] + old(waiting.elems)
    {
      t.alarmAt[current] := now + secs * SLICE_HZ;
      OffReady(current);
      MakeWait(current);
    }

    /** Thread::die. No dead thread is left on a queue, if and only if it has not announced that it is going to wait:
        then it stays on the ready queue. */
    method Die(th: nat)
      requires Queues() && th < t.state.Length && th != idle
      modifies ready, waiting, t.next, t.prev, t.linked, t.state
      ensures t.state[..] == old(t.state[..])[th := eDead]
      ensures old(t.state[th]) != eIOPending ==>
        ready.elems == Minus(old(ready.elems), th) && waiting.elems == Minus(old(waiting.elems), th)
      ensures old(t.state[th]) == eIOPending ==>
        ready.elems == old(ready.elems) && th in ready.elems && waiting.elems == old(waiting.elems)
      ensures Queues() <==> old(t.state[th]) != eIOPending
    {
      hide Links, Distinct, Minus;
      assert Placed(th, idle, ready.elems, waiting.elems, t.linked[..], t.state[..]);
      MinusIs(ready.elems, th);
      MinusIs(waiting.elems, th);
      if t.state[th] == eWaiting {
        OffWaiting(th);
      } else if t.state[th] == eReady {
        OffReady(th);
      }
      SetDead(th);
    }

    method SetDead(th: nat)
      requires (Queues() || QueuesBut(th)) && th < t.state.Length && th != idle
      modifies t.state
      ensures t.state[..] == old(t.state[..])[th := eDead] && (Queues() <==> th !in ready.elems && th !in waiting.elems)
    {
      hide Links, Distinct;
      ghost var state0 := t.state[..];
      t.state[th] := eDead;
      forall i | 0 <= i < t.linked.Length && i != th
        ensures Placed(i, idle, ready.elems, waiting.elems, t.linked[..], t.state[..]) {
        assert Placed(i, idle, ready.elems, waiting.elems, t.linked[..], state0);
      }
      assert old(Queues()) ==> Placed(th, idle, ready.elems, waiting.elems, t.linked[..], state0);
      assert Placed(th, idle, ready.elems, waiting.elems, t.linked[..], t.state[..]) <==>
        th !in ready.elems && th !in waiting.elems;
    }

    /** A runnable thread goes to the end of the ready queue. */
    method ToEnd(th: nat)
      requires QueuesBut(th) && Runnable(t.state[th])
      modifies ready, t.next, t.prev, t.linked
      ensures Queues() && waiting.elems == old(waiting.elems) && ready.elems == old(ready.elems) + [th]
    {
      hide Links, Distinct;
      ghost var next, prev, linked, ready0 := t.next[..], t.prev[..], t.linked[..], ready.elems;
      ready.Append(th);
      InTable(waiting.elems, next, prev, linked);
      forall i | 0 <= i < |waiting.elems| ensures waiting.elems[i] !in ready0 + [th] && waiting.elems[i] != th {
        assert Placed(waiting.elems[i], idle, ready0, waiting.elems, linked, t.state[..]);
      }
      StillValid(waiting, ready0 + [th], next, prev, linked, th);
      forall i | 0 <= i < t.linked.Length
        ensures Placed(i, idle, ready.elems, waiting.elems, t.linked[..], t.state[..]) {
        if i != th { assert Placed(i, idle, ready0, waiting.elems, linked, t.state[..]); }
      }
    }

    /** switch_thread: the first ready thread runs, and goes to the end of the queue. */
    method SwitchThread() returns (switched: bool)
      requires Queues()
      modifies this, ready, t.next, t.prev, t.linked
      ensures Queues() && waiting.elems == old(waiting.elems) && (switched <==> current != old(current))
      ensures (ready.elems, current) == Switched(old(ready.elems), old(current), idle)
    {
      hide Links, Distinct, Minus;
      var next := if ready.count == 0 then idle else ready.head;
      if next == current { return false; }
      if next != idle {
        ghost var ready0 := ready.elems;
        HeadIs(ready0, t.next[..], t.prev[..], t.linked[..]);
        assert Placed(next, idle, ready0, waiting.elems, t.linked[..], t.state[..]);
        MinusAt(ready0, 0);
        OffReady(next);
        ToEnd(next);
        assert Without(ready0, 0) == ready0[1..];
      } else {
        IdleNotReady();
      }
      SetCurrent(next);
      return true;
    }

    method SetCurrent(next: nat)
      requires Queues() && next < t.state.Length
      modifies this
      ensures Queues() && current == next
    {
      hide Links, Distinct;
      current := next;
    }

    lemma IdleNotReady()
      requires Queues()
      ensures idle !in ready.elems
    {
      assert Placed(idle, idle, ready.elems, waiting.elems, t.linked[..], t.state[..]);
    }

    /** The first `k` of the sleepers have been looked at. */
    ghost predicate Ticked(w0: seq<nat>, r0: seq<nat>, state0: seq<State>, alarm: seq<nat>, now: nat, k: nat)
      reads ready, waiting, t.state
    {
      Looked(waiting.elems, ready.elems, t.state[..], w0, r0, state0, alarm, now, k)
    }

    /** on_tick: the sleepers whose alarm has expired go to the ready queue, although the list is edited while it is
        gone through. */
    method Tick(now: nat) returns (schedule: bool)
      requires Queues()
      modifies ready, waiting, t.next, t.prev, t.linked, t.state
      ensures Queues() && waiting.elems == Asleep(old(waiting.elems), t.alarmAt[..], now)
      ensures ready.elems == Backwards(Awake(old(waiting.elems), t.alarmAt[..], now)) + old(ready.elems)
      ensures forall i :: 0 <= i < t.state.Length ==>
        t.state[i] == if i in Awake(old(waiting.elems), t.alarmAt[..], now) then eReady else old(t.state[i])
      ensures schedule <==> Awake(old(waiting.elems), t.alarmAt[..], now) != []
    {
      hide Links, Distinct, Asleep, Awake, Backwards;
      ghost var w0, r0, state0, alarm, k := waiting.elems, ready.elems, t.state[..], t.alarmAt[..], 0;
      NoneYet(w0, alarm, now, r0);
      var i := waiting.head;
      schedule := false;
      while i != NIL
        invariant Queues() && Ticked(w0, r0, state0, alarm, now, k) && i == At(w0, k) && t.alarmAt[..] == alarm
        invariant schedule <==> Awake(w0[..k], alarm, now) != []
        decreases |w0| - k
      {
        var woken;
        i, woken := TickOne(i, now, w0, r0, state0, k);
        AwakeNext(w0, k, alarm, now);
        if woken { schedule := true; }
        k := k + 1;
      }
      assert w0[..k] == w0 && w0[k..] == [];
    }

    /** A sleeper wakes up. */
    method WakeUp(th: nat, ghost p: nat)
      requires Queues() && p < |waiting.elems| && waiting.elems[p] == th && th < t.state.Length && th != idle
        && !Runnable(t.state[th])
      modifies ready, waiting, t.next, t.prev, t.linked, t.state
      ensures Queues() && waiting.elems == Without(old(waiting.elems), p) && ready.elems == [th] + old(ready.elems)
      ensures t.state[..] == old(t.state[..])[th := eReady]
    {
      hide Links, Distinct, Minus;
      assert Distinct(waiting.elems) by { IsDistinct(waiting); }
      MinusAt(waiting.elems, p);
      MinusHas(waiting.elems, th, th);
      OffWaiting(th);
      MakeReady(th);
    }

    /** One sleeper. */
    method TickOne(th: nat, now: nat, ghost w0: seq<nat>, ghost r0: seq<nat>, ghost state0: seq<State>, ghost k: nat)
      returns (i: int, woken: bool)
      requires Queues() && k < |w0| && th == w0[k] && Ticked(w0, r0, state0, t.alarmAt[..], now, k)
      modifies ready, waiting, t.next, t.prev, t.linked, t.state
      ensures Queues() && Ticked(w0, r0, state0, t.alarmAt[..], now, k + 1) && i == At(w0, k + 1)
      ensures woken <==> Due(th, t.alarmAt[..], now)
    {
      hide Links, Distinct, AllPlaced, Looked, Asleep;
      AtTurn(w0, k, t.alarmAt[..], now, r0, state0);
      LookedNext(waiting.elems, ready.elems, t.state[..], w0, r0, state0, t.alarmAt[..], now, k);
      i := t.next[th];
      woken := t.state[th] == eWaiting && t.alarmAt[th] != 0 && t.alarmAt[th] <= now;
      if woken {
        WakeUp(th, |Asleep(w0[..k], t.alarmAt[..], now)|);
      }
    }

    /** The thread looked at is on the waiting queue, and the one after it is the next to be looked at. */
    lemma AtTurn(w0: seq<nat>, k: nat, alarm: seq<nat>, now: nat, r0: seq<nat>, state0: seq<State>)
      requires Queues() && k < |w0| && Ticked(w0, r0, state0, alarm, now, k)
      ensures var th := w0[k];
        th < t.state.Length && th != idle && t.state[th] == eWaiting && t.next[th] == At(w0, k + 1)
    {
      hide Links, Distinct, Asleep, Awake, Backwards;
      var p, th := |Asleep(w0[..k], alarm, now)|, w0[k];
      assert waiting.elems[p] == th;
      LinkAt(waiting.elems, p, t.next[..], t.prev[..], t.linked[..]);
      assert Placed(th, idle, ready.elems, waiting.elems, t.linked[..], t.state[..]);
    }
  }

  /** Taking out the element between two parts, or leaving it to the first. */
  lemma SplitAt(a: seq<nat>, x: nat, b: seq<nat>)
    ensures Without(a + ([x] + b), |a|) == a + b && a + ([x] + b) == (a + [x]) + b
  {
    var s := a + ([x] + b);
    assert s[..|a|] == a && s[|a| + 1..] == b;
  }

  lemma IsDistinct(l: RunList)
    requires l.Valid()
    ensures Distinct(l.elems)
  {
  }

  /** The two queues and the states when the first `k` of the sleepers have been looked at. */
  ghost predicate Looked(waiting: seq<nat>, ready: seq<nat>, state: seq<State>, w0: seq<nat>, r0: seq<nat>,
                         state0: seq<State>,
                         alarm: seq<nat>, now: nat, k: nat)
  {
    && k <= |w0| && |state0| == |state| && waiting == Asleep(w0[..k], alarm, now) + w0[k..]
    && ready == Backwards(Awake(w0[..k], alarm, now)) + r0
    && forall j :: 0 <= j < |state0| ==> state[j] == if j in Awake(w0[..k], alarm, now) then eReady else state0[j]
  }

  /** One more that sleeps on, or wakes up. */
  lemma LookedNext(waiting: seq<nat>, ready: seq<nat>, state: seq<State>, w0: seq<nat>, r0: seq<nat>,
                   state0: seq<State>,
                   alarm: seq<nat>, now: nat, k: nat)
    requires Looked(waiting, ready, state, w0, r0, state0, alarm, now, k) && k < |w0| && w0[k] < |state|
    ensures !Due(w0[k], alarm, now) ==> Looked(waiting, ready, state, w0, r0, state0, alarm, now, k + 1)
    ensures Due(w0[k], alarm, now) ==> var p := |Asleep(w0[..k], alarm, now)|;
      p < |waiting| && waiting[p] == w0[k]
      && Looked(Without(waiting, p), [w0[k]] + ready, state[w0[k] := eReady], w0, r0, state0, alarm, now, k + 1)
  {
    hide Asleep, Awake, Backwards, Due;
    var th, asleep, awake := w0[k], Asleep(w0[..k], alarm, now), Awake(w0[..k], alarm, now);
    assert w0[..k + 1] == w0[..k] + [th] && w0[k..] == [th] + w0[k + 1..];
    FilterSnoc(w0[..k], th, alarm, now);
    SplitAt(asleep, th, w0[k + 1..]);
    if Due(th, alarm, now) {
      BackwardsSnoc(awake, th);
      assert [th] + Backwards(awake) + r0 == [th] + ready;
    } else {
      assert awake + [] == awake;
    }
  }

  /** The alarm of a thread has expired. */
  predicate Due(i: nat, alarm: seq<nat>, now: nat) { i < |alarm| && alarm[i] != 0 && alarm[i] <= now }

  function Asleep(s: seq<nat>, alarm: seq<nat>, now: nat): seq<nat>
  {
    if s == [] then [] else (if Due(s[0], alarm, now) then [] else [s[0]]) + Asleep(s[1..], alarm, now)
  }

  function Awake(s: seq<nat>, alarm: seq<nat>, now: nat): seq<nat>
  {
    if s == [] then [] else (if Due(s[0], alarm, now) then [s[0]] else []) + Awake(s[1..], alarm, now)
  }

  function Backwards(s: seq<nat>): seq<nat> { if s == [] then [] else Backwards(s[1..]) + [s[0]] }

  lemma NoneYet(w: seq<nat>, alarm: seq<nat>, now: nat, r: seq<nat>)
    ensures Asleep(w[..0], alarm, now) + w[0..] == w && Awake(w[..0], alarm, now) == [] && Backwards([]) + r == r
  {
  }

  lemma FilterOne(s: seq<nat>, alarm: seq<nat>, now: nat)
    ensures s == [] ==> Asleep(s, alarm, now) == [] && Awake(s, alarm, now) == []
    ensures s != [] ==>
      Asleep(s, alarm, now) == (if Due(s[0], alarm, now) then [] else [s[0]]) + Asleep(s[1..], alarm, now)
    ensures s != [] ==>
      Awake(s, alarm, now) == (if Due(s[0], alarm, now) then [s[0]] else []) + Awake(s[1..], alarm, now)
  {
  }

  lemma {:induction false} FilterSnoc(s: seq<nat>, x: nat, alarm: seq<nat>, now: nat)
    ensures Asleep(s + [x], alarm, now) == Asleep(s, alarm, now) + (if Due(x, alarm, now) then [] else [x])
    ensures Awake(s + [x], alarm, now) == Awake(s, alarm, now) + (if Due(x, alarm, now) then [x] else [])
    decreases |s|
  {
    hide Asleep, Awake, Due;
    FilterOne(s + [x], alarm, now);
    FilterOne(s, alarm, now);
    if s == [] {
      FilterOne([], alarm, now);
      assert (s + [x])[1..] == [];
    } else {
      assert (s + [x])[1..] == s[1..] + [x];
      FilterSnoc(s[1..], x, alarm, now);
    }
  }

  lemma AwakeNext(w0: seq<nat>, k: nat, alarm: seq<nat>, now: nat)
    requires k < |w0|
    ensures Awake(w0[..k + 1], alarm, now) ==
      Awake(w0[..k], alarm, now) + (if Due(w0[k], alarm, now) then [w0[k]] else [])
  {
    assert w0[..k + 1] == w0[..k] + [w0[k]];
    FilterSnoc(w0[..k], w0[k], alarm, now);
  }

  lemma {:induction false} BackwardsSnoc(s: seq<nat>, x: nat)
    ensures Backwards(s + [x]) == [x] + Backwards(s)
    decreases |s|
  {
    if s == [] {
      assert ([] + [x])[1..] == [];
    } else {
      assert (s + [x])[1..] == s[1..] + [x];
      BackwardsSnoc(s[1..], x);
    }
  }

  /** Exactly those whose alarm has expired are awake. */
  lemma {:induction false} AwakeIs(s: seq<nat>, alarm: seq<nat>, now: nat, x: nat)
    ensures x in Awake(s, alarm, now) <==> x in s && Due(x, alarm, now)
    ensures x in Asleep(s, alarm, now) <==> x in s && !Due(x, alarm, now)
    decreases |s|
  {
    if s != [] { AwakeIs(s[1..], alarm, now, x); }
  }

  lemma HeadIs(s: seq<nat>, next: seq<int>, prev: seq<int>, linked: seq<bool>)
    requires Links(s, next, prev, linked)
    ensures s != [] ==> s[0] < |linked|
  {
    if s != [] { LinkAt(s, 0, next, prev, linked); }
  }

  /** The ready queue and the running thread after a switch. */
  function Switched(ready: seq<nat>, current: nat, idle: nat): (seq<nat>, nat)
  {
    if ready == [] then (ready, idle) else if ready[0] == current then (ready, current)
      else (ready[1..] + [ready[0]], ready[0])
  }

  /** After `n` yields. */
  function Yielded(ready: seq<nat>, current: nat, idle: nat, n: nat): (seq<nat>, nat)
    decreases n
  {
    if n == 0 then (ready, current) else var (r, c) := Switched(ready, current, idle); Yielded(r, c, idle, n - 1)
  }

  /** One turn for each of the first `n` threads. */
  lemma {:induction false} RoundRobin(ready: seq<nat>, current: nat, idle: nat, n: nat)
    requires Distinct(ready) && n <= |ready| && ready != [] && current != ready[0]
    ensures Yielded(ready, current, idle, n) == (ready[n..] + ready[..n], if n == 0 then current else ready[n - 1])
    decreases n
  {
    if n > 0 {
      YieldedSnoc(ready, current, idle, n - 1);
      RoundRobin(ready, current, idle, n - 1);
      var q := ready[n - 1..] + ready[..n - 1];
      assert q[0] == ready[n - 1];
      assert q[1..] + [q[0]] == ready[n..] + ready[..n];
    } else {
      assert ready[0..] + ready[..0] == ready;
    }
  }

  lemma {:induction false} YieldedSnoc(ready: seq<nat>, current: nat, idle: nat, n: nat)
    ensures Yielded(ready, current, idle, n + 1) ==
      (var (r, c) := Yielded(ready, current, idle, n); Switched(r, c, idle))
    decreases n
  {
    if n > 0 {
      var (r, c) := Switched(ready, current, idle);
      YieldedSnoc(r, c, idle, n - 1);
    }
  }

  /** A thread at the head of the queue keeps running, however often it yields. */
  lemma {:induction false} Stuck(ready: seq<nat>, current: nat, idle: nat, n: nat)
    requires ready != [] && current == ready[0]
    ensures Yielded(ready, current, idle, n) == (ready, current)
  {
    if n > 0 { Stuck(ready, current, idle, n - 1); }
  }

  /** As many yields as there are ready threads run each of them, in the order of the queue, if and only if the running
      thread is not at its head, or alone in it. */
  lemma FairIff(ready: seq<nat>, current: nat, idle: nat)
    requires Distinct(ready) && ready != []
    ensures (forall n :: 1 <= n <= |ready| ==> Yielded(ready, current, idle, n).1 == ready[n - 1]) <==>
      current != ready[0] || |ready| == 1
  {
    hide Yielded;
    if current != ready[0] {
      forall n | 1 <= n <= |ready| ensures Yielded(ready, current, idle, n).1 ==
        ready[n - 1] { RoundRobin(ready, current, idle, n); }
    } else {
      forall n: nat ensures Yielded(ready, current, idle, n) == (ready, current) { Stuck(ready, current, idle, n); }
      if |ready| > 1 { assert Yielded(ready, current, idle, 2).1 != ready[2 - 1]; }
    }
  }

  /** Without `x`. */
  function Minus(s: seq<nat>, x: nat): seq<nat>
  {
    if s == [] then [] else if s[0] == x then Minus(s[1..], x) else [s[0]] + Minus(s[1..], x)
  }

  lemma {:induction false} MinusHas(s: seq<nat>, x: nat, y: nat)
    ensures y in Minus(s, x) <==> y in s && y != x
  {
    if s != [] { MinusHas(s[1..], x, y); }
  }

  lemma {:induction false} MinusNone(s: seq<nat>, x: nat)
    requires x !in s
    ensures Minus(s, x) == s
  {
    if s != [] { MinusNone(s[1..], x); }
  }

  lemma {:induction false} MinusConcat(a: seq<nat>, b: seq<nat>, x: nat)
    ensures Minus(a + b, x) == Minus(a, x) + Minus(b, x)
    decreases |a|
  {
    if a == [] {
      assert a + b == b;
    } else {
      assert (a + b)[1..] == a[1..] + b;
      MinusConcat(a[1..], b, x);
    }
  }

  lemma MinusHead(s: seq<nat>)
    requires s != [] && s[0] !in s[1..]
    ensures Minus(s, s[0]) == s[1..]
  {
    MinusNone(s[1..], s[0]);
  }

  lemma MinusAt(s: seq<nat>, k: nat)
    requires Distinct(s) && k < |s|
    ensures Minus(s, s[k]) == Without(s, k)
  {
    hide Minus;
    assert s == s[..k] + s[k..] && s[k..][1..] == s[k + 1..];
    MinusConcat(s[..k], s[k..], s[k]);
    MinusNone(s[..k], s[k]);
    MinusHead(s[k..]);
  }

  lemma MinusIs(s: seq<nat>, x: nat)
    requires Distinct(s)
    ensures x !in s ==> Minus(s, x) == s
    ensures forall k :: 0 <= k < |s| && s[k] == x ==> Minus(s, x) == Without(s, k)
  {
    hide Minus;
    if x !in s { MinusNone(s, x); }
    forall k | 0 <= k < |s| && s[k] == x ensures Minus(s, x) == Without(s, k) { MinusAt(s, k); }
  }

  lemma InTable(s: seq<nat>, next: seq<int>, prev: seq<int>, linked: seq<bool>)
    requires Links(s, next, prev, linked)
    ensures |next| == |prev| == |linked| && forall i :: 0 <= i < |s| ==> s[i] < |linked|
  {
    forall i | 0 <= i < |s| ensures s[i] < |linked| { LinkAt(s, i, next, prev, linked); }
  }
}
