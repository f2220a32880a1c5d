/** list.hpp: the intrusive list. A thread is known by its place in the table that holds the fields of all
    threads; the links of a thread serve all run lists, so that it can be on one of them only. */
module RunList {
  datatype State = eReady | eRunning | eWaiting | eIOPending | eIOWait | eDieing | eDead

  const NIL := -1

  /** The fields of all threads. */
  class Threads {
    const next: array<int>
    const prev: array<int>
    const linked: array<bool>
    const state: array<State>
    const alarmAt: array<nat>

    ghost predicate Valid()
    {
      next != prev && next.Length == prev.Length == linked.Length == state.Length == alarmAt.Length
    }

    constructor (n: nat)
      ensures Valid() && next.Length == n && fresh(next) && fresh(prev) && fresh(linked) && fresh(state)
        && fresh(alarmAt)
      ensures forall i :: 0 <= i < n ==> !linked[i] && state[i] == eDead
    {
      next, prev, linked := new int[n](_ => NIL), new int[n](_ => NIL), new bool[n](_ => false);
      state, alarmAt := new State[n](_ => eDead), new nat[n](_ => 0);
    }
  }

  function At(s: seq<nat>, i: int): int { if 0 <= i < |s| then s[i] else NIL }

  ghost predicate Distinct(s: seq<nat>) { forall i, j :: 0 <= i < |s| && 0 <= j < |s| && i != j ==> s[i] != s[j] }

  /** Without the element at `k`. */
  function Without(s: seq<nat>, k: nat): (w: seq<nat>)
    requires k < |s|
    ensures |w| == |s| - 1 && forall i :: 0 <= i < |w| ==> w[i] == s[if i < k then i else i + 1]
  {
    s[..k] + s[k + 1..]
  }

  /** The threads of `s` are linked in order, and are the only ones there. */
  ghost predicate Links(s: seq<nat>, next: seq<int>, prev: seq<int>, linked: seq<bool>)
  {
    |next| == |prev| == |linked| && forall i :: 0 <= i < |s| ==> LinkOk(s, i, next, prev, linked)
  }

  ghost predicate LinkOk(s: seq<nat>, i: nat, next: seq<int>, prev: seq<int>, linked: seq<bool>)
    requires i < |s| && |next| == |prev| == |linked|
  {
    s[i] < |next| && linked[s[i]] && next[s[i]] == At(s, i + 1) && prev[s[i]] == At(s, i - 1)
  }

  lemma LinkAt(s: seq<nat>, k: nat, next: seq<int>, prev: seq<int>, linked: seq<bool>)
    requires Links(s, next, prev, linked) && k < |s|
    ensures |next| == |prev| == |linked| && s[k] < |next| && linked[s[k]] && next[s[k]] == At(s, k + 1)
      && prev[s[k]] == At(s, k - 1)
  {
    assert LinkOk(s, k, next, prev, linked);
  }

  lemma Different(s: seq<nat>, i: nat, j: nat)
    requires Distinct(s) && i < |s| && j < |s| && i != j
    ensures s[i] != s[j]
  {
  }

  lemma AddDistinct(s: seq<nat>, e: nat)
    requires Distinct(s) && e !in s
    ensures Distinct(s + [e]) && Distinct([e] + s)
  {
  }

  lemma NotLinked(s: seq<nat>, e: nat, next: seq<int>, prev: seq<int>, linked: seq<bool>)
    requires Links(s, next, prev, linked) && e < |next| && !linked[e]
    ensures e !in s
  {
    hide Links;
    forall i | 0 <= i < |s| ensures s[i] != e { LinkAt(s, i, next, prev, linked); }
  }

  /** `e` goes after the last of `s`. */
  lemma LinksAppend(s: seq<nat>, e: nat, next: seq<int>, prev: seq<int>, linked: seq<bool>)
    requires Links(s, next, prev, linked) && Distinct(s) && e < |next| && !linked[e]
    ensures |next| == |prev| == |linked| && (s != [] ==> s[|s| - 1] < |next|)
    ensures var next1 := if s == [] then next else next[s[|s| - 1] := e];
      Links(s + [e], next1[e := NIL], prev[e := At(s, |s| - 1)], linked[e := true]) && Distinct(s + [e]) && e !in s
  {
    hide Distinct, LinkOk;
    NotLinked(s, e, next, prev, linked);
    AddDistinct(s, e);
    if s != [] { LinkAt(s, |s| - 1, next, prev, linked); }
    var w, next1 := s + [e], (if s == [] then next else next[s[|s| - 1] := e])[e := NIL];
    var prev1, linked1 := prev[e := At(s, |s| - 1)], linked[e := true];
    forall i | 0 <= i < |w| ensures LinkOk(w, i, next1, prev1, linked1) {
      AppendAt(s, e, i, next, prev, linked);
    }
  }

  lemma AppendAt(s: seq<nat>, e: nat, i: nat, next: seq<int>, prev: seq<int>, linked: seq<bool>)
    requires Links(s, next, prev, linked) && Distinct(s) && e < |next| && e !in s && i <= |s|
      && (s != [] ==> s[|s| - 1] < |next|)
    ensures var next1 := if s == [] then next else next[s[|s| - 1] := e];
      LinkOk(s + [e], i, next1[e := NIL], prev[e := At(s, |s| - 1)], linked[e := true])
  {
    hide Links, Distinct;
    Sizes(s, next, prev, linked);
    if i < |s| {
      LinkAt(s, i, next, prev, linked);
      if i < |s| - 1 { Different(s, i, |s| - 1); }
    }
  }

  lemma Sizes(s: seq<nat>, next: seq<int>, prev: seq<int>, linked: seq<bool>)
    requires Links(s, next, prev, linked)
    ensures |next| == |prev| == |linked|
  {
  }

  /** `e` goes before the first of `s`. */
  lemma LinksPrepend(s: seq<nat>, e: nat, next: seq<int>, prev: seq<int>, linked: seq<bool>)
    requires Links(s, next, prev, linked) && Distinct(s) && e < |next| && !linked[e]
    ensures |next| == |prev| == |linked| && (s != [] ==> s[0] < |next|)
    ensures var prev1 := if s == [] then prev else prev[s[0] := e];
      Links([e] + s, next[e := At(s, 0)], prev1[e := NIL], linked[e := true]) && Distinct([e] + s) && e !in s
  {
    hide Distinct, LinkOk;
    NotLinked(s, e, next, prev, linked);
    AddDistinct(s, e);
    if s != [] { LinkAt(s, 0, next, prev, linked); }
    var w, next1 := [e] + s, next[e := At(s, 0)];
    var prev1, linked1 := (if s == [] then prev else prev[s[0] := e])[e := NIL], linked[e := true];
    forall i | 0 <= i < |w| ensures LinkOk(w, i, next1, prev1, linked1) {
      PrependAt(s, e, i, next, prev, linked);
    }
  }

  lemma PrependAt(s: seq<nat>, e: nat, i: nat, next: seq<int>, prev: seq<int>, linked: seq<bool>)
    requires Links(s, next, prev, linked) && Distinct(s) && e < |next| && e !in s && i <= |s|
      && (s != [] ==> s[0] < |next|)
    ensures var prev1 := if s == [] then prev else prev[s[0] := e];
      LinkOk([e] + s, i, next[e := At(s, 0)], prev1[e := NIL], linked[e := true])
  {
    hide Links, Distinct;
    Sizes(s, next, prev, linked);
    if i > 0 {
      LinkAt(s, i - 1, next, prev, linked);
      if i > 1 { Different(s, i - 1, 0); }
    }
  }

  /** Past the element at `k`. */
  ghost function NextPast(s: seq<nat>, k: nat, next: seq<int>, prev: seq<int>): (r: seq<int>)
    requires k < |s| && s[k] < |next| && |next| == |prev|
    ensures |r| == |next|
  {
    (if 0 <= prev[s[k]] < |next| then next[prev[s[k]] := next[s[k]]] else next)[s[k] := NIL]
  }

  ghost function PrevPast(s: seq<nat>, k: nat, next: seq<int>, prev: seq<int>): (r: seq<int>)
    requires k < |s| && s[k] < |next| && |next| == |prev|
    ensures |r| == |next|
  {
    (if 0 <= next[s[k]] < |next| then prev[next[s[k]] := prev[s[k]]] else prev)[s[k] := NIL]
  }

  lemma UnlinkAt(s: seq<nat>, k: nat, i: nat, next: seq<int>, prev: seq<int>, linked: seq<bool>)
    requires Links(s, next, prev, linked) && Distinct(s) && k < |s| && i < |s| - 1 && s[k] < |next|
    ensures LinkOk(Without(s, k), i, NextPast(s, k, next, prev), PrevPast(s, k, next, prev), linked[s[k] := false])
  {
    Sizes(s, next, prev, linked);
    hide Links, Distinct;
    var j := if i < k then i else i + 1;
    LinkAt(s, j, next, prev, linked);
    LinkAt(s, k, next, prev, linked);
    Different(s, j, k);
    if k + 1 < |s| {
      LinkAt(s, k + 1, next, prev, linked);
      if j != k + 1 { Different(s, j, k + 1); }
    }
    if k > 0 {
      LinkAt(s, k - 1, next, prev, linked);
      if j != k - 1 { Different(s, j, k - 1); }
    }
  }

  lemma WithoutDistinct(s: seq<nat>, k: nat)
    requires k < |s| && Distinct(s)
    ensures Distinct(Without(s, k)) && s[k] !in Without(s, k)
  {
  }

  lemma LinksUnlink(s: seq<nat>, k: nat, next: seq<int>, prev: seq<int>, linked: seq<bool>)
    requires Links(s, next, prev, linked) && Distinct(s) && k < |s|
    ensures |next| == |prev| == |linked| && s[k] < |next|
    ensures Links(Without(s, k), NextPast(s, k, next, prev), PrevPast(s, k, next, prev), linked[s[k] := false])
    ensures Distinct(Without(s, k)) && s[k] !in Without(s, k)
  {
    hide Distinct, LinkOk, NextPast, PrevPast;
    LinkAt(s, k, next, prev, linked);
    WithoutDistinct(s, k);
    var w, next1, prev1, linked1 :=
      Without(s, k), NextPast(s, k, next, prev), PrevPast(s, k, next, prev), linked[s[k] := false];
    forall i | 0 <= i < |w| ensures LinkOk(w, i, next1, prev1, linked1) {
      UnlinkAt(s, k, i, next, prev, linked);
    }
  }

  class RunList {
    const t: Threads
    var head: int
    var tail: int
    var count: int
    ghost var elems: seq<nat>

    /** The list is a sequence without duplicates. */
    ghost predicate Valid()
      reads this, t.next, t.prev, t.linked
    {
      && t.Valid() && count == |elems| && Distinct(elems) && Links(elems, t.next[..], t.prev[..], t.linked[..])
      && head == At(elems, 0) && tail == At(elems, |elems| - 1)
    }

    constructor (t: Threads)
      requires t.Valid()
      ensures Valid() && elems == [] && this.t == t
    {
      this.t := t;
      head, tail, count := NIL, NIL, 0;
      elems := [];
    }

    /** At the end, unless it is on a list already. */
    method Append(elem: nat)
      requires Valid() && elem < t.next.Length
      modifies this, t.next, t.prev, t.linked
      ensures Valid() && elems == old(if t.linked[elem] then elems else elems + [elem])
      ensures t.linked[..] == old(t.linked[..])[elem := true]
      ensures Elsewhere(t, old(t.next[..]), old(t.prev[..]), old(elems) + [elem])
    {
      hide Links, Distinct;
      if t.linked[elem] { return; }
      LinksAppend(elems, elem, t.next[..], t.prev[..], t.linked[..]);
      t.linked[elem] := true;
      count := count + 1;
      if tail != NIL {
        t.next[tail] := elem;
      }
      t.prev[elem] := tail;
      t.next[elem] := NIL;
      tail := elem;
      if head == NIL { head := tail; }
      elems := elems + [elem];
    }

    /** At the beginning, unless it is on a list already. */
    method Prepend(elem: nat)
      requires Valid() && elem < t.next.Length
      modifies this, t.next, t.prev, t.linked
      ensures Valid() && elems == old(if t.linked[elem] then elems else [elem] + elems)
      ensures t.linked[..] == old(t.linked[..])[elem := true]
      ensures Elsewhere(t, old(t.next[..]), old(t.prev[..]), old(elems) + [elem])
    {
      hide Links, Distinct;
      if t.linked[elem] { return; }
      LinksPrepend(elems, elem, t.next[..], t.prev[..], t.linked[..]);
      t.linked[elem] := true;
      count := count + 1;
      if head != NIL {
        t.prev[head] := elem;
      }
      t.next[elem] := head;
      t.prev[elem] := NIL;
      head := elem;
      if tail == NIL { tail := head; }
      elems := [elem] + elems;
    }

    /** Off the list, if it is on it; a thread that is linked must be on this list. */
    method Unlink(elem: nat)
      requires Valid() && elem < t.next.Length && (t.linked[elem] ==> elem in elems)
      modifies this, t.next, t.prev, t.linked
      ensures Valid() && elem !in elems && t.linked[..] == old(t.linked[..])[elem := false]
      ensures old(!t.linked[elem]) ==> elems == old(elems)
      ensures old(t.linked[elem]) ==> exists k ::
        0 <= k < |old(elems)| && old(elems)[k] == elem && elems == Without(old(elems), k)
      ensures Elsewhere(t, old(t.next[..]), old(t.prev[..]), old(elems))
    {
      hide Links, Distinct, NextPast, PrevPast;
      if !t.linked[elem] {
        NotLinked(elems, elem, t.next[..], t.prev[..], t.linked[..]);
        return;
      }
      ghost var k :| 0 <= k < |elems| && elems[k] == elem;
      ghost var s, next0, prev0 := elems, t.next[..], t.prev[..];
      LinksUnlink(s, k, next0, prev0, t.linked[..]);
      Ends(s, k, next0, prev0, t.linked[..]);
      if elem == head { head := t.next[elem]; }
      if elem == tail { tail := t.prev[elem]; }
      Detach(elem, s, k);
      t.linked[elem] := false;
      count := count - 1;
      elems := Without(s, k);
    }

    /** Its neighbours point past an element. */
    method Detach(elem: nat, ghost s: seq<nat>, ghost k: nat)
      requires t.Valid() && Links(s, t.next[..], t.prev[..], t.linked[..]) && Distinct(s) && k < |s|
        && s[k] == elem < t.next.Length
      modifies t.next, t.prev
      ensures t.next[..] == NextPast(s, k, old(t.next[..]), old(t.prev[..]))
        && t.prev[..] == PrevPast(s, k, old(t.next[..]), old(t.prev[..]))
      ensures Elsewhere(t, old(t.next[..]), old(t.prev[..]), s)
    {
      hide Links, Distinct;
      Ends(s, k, t.next[..], t.prev[..], t.linked[..]);
      if t.next[elem] != NIL {
        t.prev[t.next[elem]] := t.prev[elem];
      }
      if t.prev[elem] != NIL {
        t.next[t.prev[elem]] := t.next[elem];
      }
      t.next[elem], t.prev[elem] := NIL, NIL;
    }
  }

  /** The links of the element at `k`, and what they say about the ends of the list. */
  lemma Ends(s: seq<nat>, k: nat, next: seq<int>, prev: seq<int>, linked: seq<bool>)
    requires Links(s, next, prev, linked) && Distinct(s) && k < |s|
    ensures |next| == |prev| == |linked| && s[k] < |next| && next[s[k]] == At(s, k + 1) && prev[s[k]] == At(s, k - 1)
    ensures k + 1 < |s| ==> s[k + 1] < |next| && s[k + 1] != s[k]
    ensures k > 0 ==> s[k - 1] < |next| && s[k - 1] != s[k]
    ensures (s[k] == s[0] <==> k == 0) && (s[k] == s[|s| - 1] <==> k == |s| - 1)
  {
    hide Links;
    LinkAt(s, k, next, prev, linked);
    if k + 1 < |s| { LinkAt(s, k + 1, next, prev, linked); }
    if k > 0 { LinkAt(s, k - 1, next, prev, linked); }
  }

  /** The links of threads not in `s` have not changed. */
  ghost predicate Elsewhere(t: Threads, next: seq<int>, prev: seq<int>, s: seq<nat>)
    reads t.next, t.prev
  {
    && |next| == t.next.Length && |prev| == t.prev.Length
    && forall i :: 0 <= i < |next| && i < |prev| && i !in s ==> t.next[i] == next[i] && t.prev[i] == prev[i]
  }
}
