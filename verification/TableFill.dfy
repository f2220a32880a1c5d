/** How the two-level table grows: entering one code, and opening one sub-table, keep every code
    entered before. The codes are any prefix-free list in which the codes that share their first
    `root` bits stand together. */
module TableFill {
  import opened Bits
  import opened DecodeTable

  ghost predicate PrefixFreeList(codes: seq<seq<bool>>)
  {
    forall i, j {:trigger codes[i], codes[j]} :: 0 <= i < |codes| && 0 <= j < |codes| && i != j ==>
      !(codes[i] <= codes[j])
  }

  ghost predicate SameGroup(root: nat, a: seq<bool>, b: seq<bool>)
  {
    |a| > root && |b| > root && a[..root] == b[..root]
  }

  ghost predicate Grouped(root: nat, codes: seq<seq<bool>>)
  {
    forall i, k {:trigger SameGroup(root, codes[i], codes[k])} ::
      0 <= i < k < |codes| && SameGroup(root, codes[i], codes[k]) ==> SameGroup(root, codes[k - 1], codes[k])
  }

  /** `t1` is `t` with `e` at every index of the table at `at` that begins with `cb`. */
  ghost predicate FilledWith(t: seq<Entry>, t1: seq<Entry>, at: nat, c: nat, cb: seq<bool>, e: Entry)
    requires at + Pow2(c) <= |t|
  {
    && |t1| == |t|
    && (forall w {:trigger Slot(w)} :: |w| == c ==> t1[at + Slot(w)] == if cb <= w then e else t[at + Slot(w)])
    && (forall i :: 0 <= i < |t| && !(at <= i < at + Pow2(c)) ==> t1[i] == t[i])
  }

  /** The table being filled: a root table, or a sub-table of the group of codes that begin with `low`. */
  datatype Current = Root | Sub(low: seq<bool>)

  ghost predicate InGroup(root: nat, cur: Current, cb: seq<bool>)
  {
    cur.Sub? && |cb| > root && cb[..root] == cur.low
  }

  /** The first `k` codes are entered; the table of `curr` index bits at `next` is the last one. */
  ghost predicate State(t: seq<Entry>, root: nat, codes: seq<seq<bool>>, acts: seq<Action>, k: nat,
                        next: nat, curr: nat, cur: Current)
    requires Pow2(root) <= |t| && k <= |codes| == |acts|
  {
    && (forall j :: 0 <= j < k ==> Leads(t, root, codes[j], acts[j]) && Region(t, root, codes[j], next, curr, cur))
    && next + Pow2(curr) <= |t|
    && match cur
       case Root => next == 0 && curr == root
       case Sub(low) =>
         |low| == root && 1 <= curr < 16 && Pow2(root) <= next && t[Slot(low)] == Entry(curr, root, next)
  }

  /** Every sub-table but the current one lies below the current one. */
  ghost predicate Region(t: seq<Entry>, root: nat, cb: seq<bool>, next: nat, curr: nat, cur: Current)
    requires Pow2(root) <= |t|
  {
    |cb| > root ==>
      && cur.Sub?
      && Link(t, root, cb).val + Pow2(Link(t, root, cb).op) <= if cb[..root] == cur.low then next + Pow2(curr) else next
  }

  ghost predicate Fits(root: nat, cb: seq<bool>, curr: nat, cur: Current)
  {
    match cur
    case Root => |cb| <= root
    case Sub(low) => InGroup(root, cur, cb) && |cb| <= root + curr
  }

  function Drop(root: nat, cur: Current): nat { if cur.Root? then 0 else root }

  function Here(root: nat, cur: Current, len: nat, a: Action): Entry
    requires Drop(root, cur) <= len
  {
    Entry(a.op, len - Drop(root, cur), a.val)
  }

  lemma CommonExtension(a: seq<bool>, b: seq<bool>, w: seq<bool>)
    requires a <= w && b <= w
    ensures a <= b || b <= a
  {
  }

  /** Entering code `s` leaves the code `b` entered before where it was. */
  lemma KeepEntered(t: seq<Entry>, t1: seq<Entry>, root: nat, b: seq<bool>, a: Action, s: seq<bool>, e: Entry,
                    next: nat, curr: nat, cur: Current)
    requires Pow2(root) <= |t| && next + Pow2(curr) <= |t|
    requires Leads(t, root, b, a) && Region(t, root, b, next, curr, cur)
    requires cur.Root? ==> next == 0 && curr == root
    requires cur.Sub? ==> |cur.low| == root && Pow2(root) <= next && t[Slot(cur.low)] == Entry(curr, root, next)
    requires Fits(root, s, curr, cur) && FilledWith(t, t1, next, curr, s[Drop(root, cur)..], e)
    requires !(b <= s) && !(s <= b)
    ensures Leads(t1, root, b, a) && Region(t1, root, b, next, curr, cur)
  {
    hide Pow2, Value;
    if |b| <= root {
      KeepShort(t, t1, root, b, a, s, e, next, curr, cur);
    } else {
      var lk := Link(t, root, b);
      assert Link(t1, root, b) == lk by { assert Slot(b[..root]) < Pow2(root); }
      forall w {:trigger Slot(w)} | |w| == lk.op && b[root..] <= w ensures t1[lk.val + Slot(w)] == t[lk.val + Slot(w)] {
        if b[..root] == cur.low {
          assert lk == Entry(curr, root, next);
          KeepInGroup(t, t1, root, b, s, e, next, curr, cur, w);
        }
      }
    }
  }

  lemma KeepInGroup(t: seq<Entry>, t1: seq<Entry>, root: nat, b: seq<bool>, s: seq<bool>, e: Entry,
                    next: nat, curr: nat, cur: Current, w: seq<bool>)
    requires next + Pow2(curr) <= |t| && cur.Sub? && |cur.low| == root < |b| && b[..root] == cur.low
    requires |w| == curr && b[root..] <= w && !(b <= s) && !(s <= b)
    requires Fits(root, s, curr, cur) && FilledWith(t, t1, next, curr, s[Drop(root, cur)..], e)
    ensures t1[next + Slot(w)] == t[next + Slot(w)]
  {
    hide Pow2, Value;
    var x := b[..root] + w;
    if s[root..] <= w { CommonExtension(b, s, x); }
  }

  lemma KeepShort(t: seq<Entry>, t1: seq<Entry>, root: nat, b: seq<bool>, a: Action, s: seq<bool>, e: Entry,
                  next: nat, curr: nat, cur: Current)
    requires Pow2(root) <= |t| && next + Pow2(curr) <= |t| && Leads(t, root, b, a) && |b| <= root
    requires cur.Root? ==> next == 0 && curr == root
    requires cur.Sub? ==> Pow2(root) <= next
    requires Fits(root, s, curr, cur) && FilledWith(t, t1, next, curr, s[Drop(root, cur)..], e)
    requires !(b <= s) && !(s <= b)
    ensures Leads(t1, root, b, a)
  {
    hide Pow2, Value;
    forall w {:trigger Slot(w)} | |w| == root && b <= w ensures t1[0 + Slot(w)] == t[0 + Slot(w)] {
      if cur.Root? {
        assert s[0..] == s;
        if s <= w { CommonExtension(b, s, w); }
      }
    }
  }

  /** Entering the next code. */
  lemma EnterCode(t: seq<Entry>, t1: seq<Entry>, root: nat, codes: seq<seq<bool>>, acts: seq<Action>, k: nat,
                  next: nat, curr: nat, cur: Current)
    requires Pow2(root) <= |t| && k < |codes| == |acts| && State(t, root, codes, acts, k, next, curr, cur)
    requires PrefixFreeList(codes) && Fits(root, codes[k], curr, cur)
    requires FilledWith(t, t1, next, curr, codes[k][Drop(root, cur)..], Here(root, cur, |codes[k]|, acts[k]))
    ensures State(t1, root, codes, acts, k + 1, next, curr, cur)
  {
    var s, e := codes[k], Here(root, cur, |codes[k]|, acts[k]);
    forall j | 0 <= j < k
      ensures Leads(t1, root, codes[j], acts[j]) && Region(t1, root, codes[j], next, curr, cur)
    {
      KeepEntered(t, t1, root, codes[j], acts[j], s, e, next, curr, cur);
    }
    if cur.Root? {
      assert s[0..] == s;
    } else {
      assert Link(t1, root, s) == t[Slot(cur.low)];
    }
  }

  /** `t1` is `t` but for the entry at `i`. */
  ghost predicate SetAt(t: seq<Entry>, t1: seq<Entry>, i: nat, e: Entry)
  {
    && i < |t| == |t1| && t1[i] == e
    && forall j :: 0 <= j < |t| && j != i ==> t1[j] == t[j]
  }

  /** A link in the root entry of `low` leaves the codes entered before where they were. */
  lemma KeepOnOpen(t: seq<Entry>, t1: seq<Entry>, root: nat, b: seq<bool>, a: Action, low: seq<bool>, lk: Entry)
    requires Pow2(root) <= |t| && |low| == root && Leads(t, root, b, a)
    requires SetAt(t, t1, Slot(low), lk)
    requires |b| <= root ==> !(b <= low)
    requires |b| > root ==> b[..root] != low
    ensures Leads(t1, root, b, a)
    ensures |b| > root ==> Link(t1, root, b) == Link(t, root, b)
  {
    forall w {:trigger Slot(w)} | |w| == root && w != low ensures t1[Slot(w)] == t[Slot(w)] {
      if Slot(w) == Slot(low) { ValueInjective(w, low); }
    }
    if |b| <= root {
      assert forall w {:trigger Slot(w)} :: |w| == root && b <= w ==> t1[0 + Slot(w)] == t[0 + Slot(w)];
    } else {
      var lb := Link(t, root, b);
      assert lb == Link(t1, root, b);
      assert forall w {:trigger Slot(w)} :: |w| == lb.op ==> t1[lb.val + Slot(w)] == t[lb.val + Slot(w)];
    }
  }

  lemma NotInNewGroup(root: nat, codes: seq<seq<bool>>, j: nat, k: nat, cur: Current)
    requires PrefixFreeList(codes) && Grouped(root, codes)
    requires j < k < |codes| && |codes[k]| > root && !InGroup(root, cur, codes[k])
    requires if cur.Sub? then InGroup(root, cur, codes[k - 1]) else |codes[j]| <= root
    ensures |codes[j]| <= root ==> !(codes[j] <= codes[k][..root])
    ensures |codes[j]| > root ==> codes[j][..root] != codes[k][..root]
  {
    assert |codes[j]| > root && codes[j][..root] == codes[k][..root] ==> SameGroup(root, codes[j], codes[k]);
  }

  /** Opening a sub-table for the group of the next code, in the space after the current table. */
  lemma OpenSub(t: seq<Entry>, t1: seq<Entry>, root: nat, codes: seq<seq<bool>>, acts: seq<Action>, k: nat,
                next: nat, curr: nat, cur: Current, c: nat)
    requires Pow2(root) <= |t| && k < |codes| == |acts| && State(t, root, codes, acts, k, next, curr, cur)
    requires PrefixFreeList(codes) && Grouped(root, codes) && |codes[k]| > root && !InGroup(root, cur, codes[k])
    requires cur.Sub? ==> k > 0 && InGroup(root, cur, codes[k - 1])
    requires 1 <= c < 16 && next + Pow2(curr) + Pow2(c) <= |t|
    requires SetAt(t, t1, Slot(codes[k][..root]), Entry(c, root, next + Pow2(curr)))
    ensures State(t1, root, codes, acts, k, next + Pow2(curr), c, Sub(codes[k][..root]))
  {
    hide Pow2, Slot, Leads, PrefixFreeList, Grouped;
    var low, next' := codes[k][..root], next + Pow2(curr);
    forall j | 0 <= j < k
      ensures Leads(t1, root, codes[j], acts[j]) && Region(t1, root, codes[j], next', c, Sub(low))
    {
      NotInNewGroup(root, codes, j, k, cur);
      KeepOnOpen(t, t1, root, codes[j], acts[j], low, Entry(c, root, next'));
    }
  }
}
