/** trees.c: giving the symbols their final lengths, the least frequent the longest. */
module Reassign {
  import opened Bits
  import opened SetSum
  import opened Huffman
  import opened Merging
  import opened TreeBuild
  import opened Depths
  import opened BitLengths
  import opened LengthLimit

  /** The node merged `i`-th. */
  ghost function Node(g: Merges, i: nat): nat
    requires i < 2 * |g.pairs|
  {
    if i % 2 == 0 then g.pairs[i / 2].0 else g.pairs[i / 2].1
  }

  lemma NodesDistinct(g: Merges, i: nat, j: nat)
    requires g.Valid() && i < j < 2 * |g.pairs|
    ensures Node(g, i) != Node(g, j)
  {
    assert g.Step(i / 2) && g.Step(j / 2);
    if i / 2 < j / 2 { NeverRootAgain(g, i / 2, j / 2); }
  }

  lemma {:induction false} NodesSorted(g: Merges, f: seq<nat>, i: nat, j: nat)
    requires RemovedInOrder(g, f) && i <= j < 2 * |g.pairs|
    ensures At(f, Node(g, i)) <= At(f, Node(g, j))
    decreases j
  {
    if i < j { NodesSorted(g, f, i, j - 1); }
  }

  lemma {:induction false} NodePlace(g: Merges, x: nat, k: nat) returns (i: nat)
    requires g.Valid() && k <= |g.pairs| && x in g.forests[0] && x !in g.forests[k]
    ensures i < 2 * |g.pairs| && Node(g, i) == x
  {
    assert k > 0;
    assert g.Step(k - 1);
    if x in g.forests[k - 1] {
      i := if x == g.pairs[k - 1].0 then 2 * (k - 1) else 2 * (k - 1) + 1;
    } else {
      i := NodePlace(g, x, k - 1);
    }
  }

  /** Symbols among the first `i` merged nodes. */
  ghost function Upto(g: Merges, i: nat): set<nat>
    requires i <= 2 * |g.pairs|
  {
    set j | 0 <= j < i && Node(g, j) < g.elems :: Node(g, j)
  }

  lemma UptoStep(g: Merges, i: nat)
    requires g.Valid() && i < 2 * |g.pairs|
    ensures Upto(g, i + 1) == if Node(g, i) < g.elems then Upto(g, i) + {Node(g, i)} else Upto(g, i)
    ensures Node(g, i) !in Upto(g, i)
  {
    forall j | 0 <= j < i ensures Node(g, j) != Node(g, i) { NodesDistinct(g, j, i); }
  }

  lemma UptoLeaves(g: Merges, i: nat)
    requires g.Valid() && i <= 2 * |g.pairs|
    ensures Upto(g, i) <= g.Leaves()
  {
    forall j | 0 <= j < i && Node(g, j) < g.elems ensures Node(g, j) in g.Leaves() {
      assert g.Step(j / 2);
      LowAreLeaves(g, j / 2);
    }
  }

  lemma UptoAll(g: Merges)
    requires g.Valid() && |g.pairs| >= 1 && g.Roots() == {g.elems + |g.pairs| - 1}
    ensures Upto(g, 2 * |g.pairs|) == g.Leaves()
  {
    UptoLeaves(g, 2 * |g.pairs|);
    assert IdsBelow(g.forests[0], g.elems + 0);
    forall x | x in g.Leaves() ensures x in Upto(g, 2 * |g.pairs|) {
      assert g.forests[|g.pairs|] == g.Roots();
      var i := NodePlace(g, x, |g.pairs|);
    }
  }

  /** A more frequent symbol never has a longer code. */
  ghost predicate Monotone(s: set<nat>, f: seq<nat>, l: seq<nat>)
  {
    forall x, y :: x in s && y in s && At(f, x) < At(f, y) ==> At(l, x) >= At(l, y)
  }

  /** Lengths given so far: to the first symbols in order of frequency, all of the lengths above `bits` and
      all but `n` of the length `bits`. */
  ghost predicate Given(done: set<nat>, c: seq<nat>, l: seq<nat>, m: nat, bits: nat, n: nat)
  {
    && bits <= m < |c| && n <= c[bits]
    && (forall x :: x in done ==> bits <= At(l, x) <= m)
    && (forall b :: 0 <= b < |c| ==>
      Sum(done, Is(l, b)) == if b < bits then 0 else if b == bits then c[b] - n else c[b])
  }

  lemma GivenStep(done: set<nat>, c: seq<nat>, l: seq<nat>, l2: seq<nat>, m: nat, bits: nat, n: nat, x: nat)
    requires Given(done, c, l, m, bits, n) && n > 0 && x !in done && At(l2, x) == bits
    requires forall y :: y in done ==> At(l2, y) == At(l, y)
    ensures Given(done + {x}, c, l2, m, bits, n - 1)
  {
    hide Sum;
    forall b | 0 <= b < |c| ensures Sum(done + {x}, Is(l2, b)) == Sum(done, Is(l, b)) + Is(l2, b)(x) {
      AddOne(done, Is(l, b), Is(l2, b), x);
    }
  }

  lemma MonotoneStep(g: Merges, f: seq<nat>, f2: seq<nat>, l: seq<nat>, l2: seq<nat>, i: nat, bits: nat)
    requires g.Valid() && RemovedInOrder(g, f2) && i < 2 * |g.pairs|
      && (forall x :: 0 <= x < g.elems ==> At(f, x) == At(f2, x))
    requires Monotone(Upto(g, i), f, l) && (forall y :: y in Upto(g, i) ==> At(l2, y) == At(l, y))
    requires Node(g, i) < g.elems && At(l2, Node(g, i)) == bits && forall x :: x in Upto(g, i) ==> bits <= At(l, x)
    ensures Monotone(Upto(g, i) + {Node(g, i)}, f, l2)
  {
    var m := Node(g, i);
    forall x | x in Upto(g, i) ensures At(f, x) <= At(f, m) {
      var j :| 0 <= j < i && Node(g, j) < g.elems && x == Node(g, j);
      NodesSorted(g, f2, j, i);
    }
  }

  lemma BillUpdate(s: set<nat>, f: seq<nat>, l: seq<nat>, l2: seq<nat>, desc: StaticDesc, x: nat)
    requires x in s && forall y :: y != x ==> At(l2, y) == At(l, y)
    ensures Sum(s, Bill(f, l2, desc)) == Sum(s, Bill(f, l, desc)) + (At(l2, x) - At(l, x)) * At(f, x)
  {
    hide Times, Sum;
    SumRemove(s, Bill(f, l, desc), x);
    SumRemove(s, Bill(f, l2, desc), x);
    SumAgree(s - {x}, Bill(f, l, desc), Bill(f, l2, desc));
    PriceChange(At(f, x), At(l, x), At(l2, x), desc.ExtraBits(x));
  }

  lemma PriceChange(v: nat, a: nat, b: nat, e: nat)
    ensures Times(v, b + e) == Times(v, a + e) + (b - a) * v
  {
    Distrib(a + e, b - a, v);
  }

  /** Symbols that will get a length shorter than `bits`. */
  function Rest(c: seq<nat>, bits: nat): nat
    requires bits < |c|
  {
    if bits == 0 then 0 else Total(c, bits - 1)
  }

  /** The lengths of the first symbols in order of frequency are final. */
  ghost predicate Settled(g: Merges, f: seq<nat>, c: seq<nat>, l: seq<nat>, m: nat, i: nat, bits: nat, n: nat)
  {
    && g.Valid() && i <= 2 * |g.pairs| && bits < |c|
    && Given(Upto(g, i), c, l, m, bits, n) && Monotone(Upto(g, i), f, l)
    && |Upto(g, i)| + n + Rest(c, bits) == |g.Leaves()|
  }

  lemma SettledStart(g: Merges, f: seq<nat>, c: seq<nat>, l: seq<nat>, m: nat)
    requires g.Valid() && 1 <= m < |c| && Total(c, m) == |g.Leaves()| && forall b :: m < b < |c| ==> c[b] == 0
    ensures Settled(g, f, c, l, m, 0, m, c[m])
  {
    assert Upto(g, 0) == {};
  }

  lemma SettledNext(g: Merges, f: seq<nat>, c: seq<nat>, l: seq<nat>, m: nat, i: nat, bits: nat)
    requires Settled(g, f, c, l, m, i, bits, 0) && bits > 0 && c[0] == 0
    ensures Settled(g, f, c, l, m, i, bits - 1, c[bits - 1])
  {
    hide Monotone, Upto;
  }

  /** As long as a length is left to give, a symbol is left to get it. */
  lemma SettledMore(g: Merges, f: seq<nat>, c: seq<nat>, l: seq<nat>, m: nat, i: nat, bits: nat, n: nat)
    requires Settled(g, f, c, l, m, i, bits, n) && |g.pairs| >= 1 && g.Roots() == {g.elems + |g.pairs| - 1}
    ensures n > 0 ==> i < 2 * |g.pairs|
    ensures bits == 0 && c[0] == 0 ==> Upto(g, i) == g.Leaves()
  {
    UptoAll(g);
    UptoLeaves(g, i);
    Within(g.Leaves() - Upto(g, i), g.Leaves());
    assert Upto(g, i) + (g.Leaves() - Upto(g, i)) == g.Leaves();
  }

  lemma SettledStep(g: Merges, f: seq<nat>, f2: seq<nat>, c: seq<nat>, l: seq<nat>, l2: seq<nat>, m: nat, i: nat,
                    bits: nat, n: nat)
    requires Settled(g, f, c, l, m, i, bits, n) && n > 0 && i < 2 * |g.pairs| && RemovedInOrder(g, f2)
    requires forall x :: 0 <= x < g.elems ==> At(f, x) == At(f2, x)
    ensures Node(g, i) >= g.elems ==> Settled(g, f, c, l, m, i + 1, bits, n)
    ensures Node(g, i) < g.elems && At(l2, Node(g, i)) == bits
      && (forall y :: y != Node(g, i) ==> At(l2, y) == At(l, y))
      ==> Settled(g, f, c, l2, m, i + 1, bits, n - 1)
  {
    hide Given, Monotone;
    UptoStep(g, i);
    if Node(g, i) < g.elems && At(l2, Node(g, i)) == bits && forall y :: y != Node(g, i) ==> At(l2, y) == At(l, y) {
      GivenStep(Upto(g, i), c, l, l2, m, bits, n, Node(g, i));
      GivenFrom(Upto(g, i), c, l, m, bits, n);
      MonotoneStep(g, f, f2, l, l2, i, bits);
    }
  }

  lemma GivenFrom(done: set<nat>, c: seq<nat>, l: seq<nat>, m: nat, bits: nat, n: nat)
    requires Given(done, c, l, m, bits, n)
    ensures forall x :: x in done ==> bits <= At(l, x)
  {
  }

  /** State of the second pass. */
  ghost predicate Settling(t: TreeState, fc: array<nat>, dl: array<nat>, desc: StaticDesc, g: Merges, f: seq<nat>,
                           i: nat, bits: nat, n: nat, opt: int)
    reads t, t.heap, t.blCount, fc, dl
  {
    && t.blCount.Length == 16 && t.blCount != dl && fc != dl && fc != t.blCount && t.blCount != t.heap && dl != t.heap
      && fc != t.heap
    && |f| == fc.Length == dl.Length && (forall x :: 0 <= x < g.elems ==> At(f, x) == At(fc[..], x))
    && RemovedInOrder(g, fc[..]) && g.elems + |g.pairs| <= dl.Length && |g.pairs| >= 1
    && t.blCount[0] == 0 && desc.maxLength <= 15 && g.Valid()
    && Settled(g, f, t.blCount[..], dl[..], desc.maxLength, i, bits, n) && g.Roots() == {g.elems + |g.pairs| - 1}
    && t.optLen - opt == Sum(g.Leaves(), Bill(f, dl[..], desc))
    && 2 * |g.pairs| <= t.heap.Length
    && (forall j :: 0 <= j < |g.pairs| ==>
      t.heap[t.heap.Length - 1 - 2 * j] == g.pairs[j].0 && t.heap[t.heap.Length - 2 - 2 * j] == g.pairs[j].1)
  }

  lemma NodeAt(g: Merges, heap: seq<nat>, maxCode: nat, i: nat)
    requires g.Valid() && i < 2 * |g.pairs| <= |heap| && IsMaxCode(maxCode, g.Leaves())
    requires forall j :: 0 <= j < |g.pairs| ==>
      heap[|heap| - 1 - 2 * j] == g.pairs[j].0 && heap[|heap| - 2 - 2 * j] == g.pairs[j].1
    ensures heap[|heap| - 1 - i] == Node(g, i) < g.elems + |g.pairs|
      && (Node(g, i) < g.elems <==> Node(g, i) <= maxCode)
    ensures Node(g, i) < g.elems ==> Node(g, i) in g.Leaves()
  {
    SonIsLeaf(g, maxCode, i / 2);
    PairIds(g, i / 2);
    assert i == 2 * (i / 2) || i == 2 * (i / 2) + 1;
  }

  /** Look at the next node in order of frequency; if it is a symbol, it gets length `bits`. */
  method SettleNext(t: TreeState, fc: array<nat>, dl: array<nat>, maxCode: nat, desc: StaticDesc, h: nat, bits: nat,
                    n: nat,
                    ghost g: Merges, ghost f: seq<nat>, ghost i: nat, ghost opt: int)
    returns (n2: nat)
    requires Settling(t, fc, dl, desc, g, f, i, bits, n, opt) && n > 0 && i < 2 * |g.pairs|
      && h == t.heap.Length - 1 - i
    requires IsMaxCode(maxCode, g.Leaves())
    modifies t`optLen, dl
    ensures Settling(t, fc, dl, desc, g, f, i + 1, bits, n2, opt)
    ensures forall x :: 0 <= x < dl.Length && x < g.elems && x !in g.Leaves() ==> dl[x] == old(dl[x])
  {
    hide Settled, RemovedInOrder;
    ghost var l := dl[..];
    NodeAt(g, t.heap[..], maxCode, i);
    var m := t.heap[h];
    n2 := n;
    if m > maxCode {
      SettledStep(g, f, fc[..], t.blCount[..], l, l, desc.maxLength, i, bits, n);
      return;
    }
    if dl[m] != bits {
      t.optLen := t.optLen + (bits - dl[m]) * fc[m];
      dl[m] := bits;
    }
    assert dl[..] == l[m := bits];
    BillUpdate(g.Leaves(), f, l, dl[..], desc, m);
    SettledStep(g, f, fc[..], t.blCount[..], l, dl[..], desc.maxLength, i, bits, n);
    n2 := n - 1;
  }

  /** Hand out the counted lengths, longest first, to the symbols in order of frequency. */
  method SecondPass(t: TreeState, fc: array<nat>, dl: array<nat>, maxCode: nat, desc: StaticDesc, ghost g: Merges,
                    ghost f: seq<nat>, ghost opt: int)
    returns (ghost i: nat)
    requires desc.Valid() && t.blCount.Length == 16
      && Settling(t, fc, dl, desc, g, f, 0, desc.maxLength, t.blCount[desc.maxLength], opt)
    requires IsMaxCode(maxCode, g.Leaves())
    modifies t`optLen, dl
    ensures g.Valid() && i <= 2 * |g.pairs| && Upto(g, i) == g.Leaves() && Settling(t, fc, dl, desc, g, f, i, 0, 0, opt)
    ensures forall x :: 0 <= x < dl.Length && x < g.elems && x !in g.Leaves() ==> dl[x] == old(dl[x])
  {
    hide Settled, RemovedInOrder, Upto;
    var h := t.heap.Length;
    var bits := desc.maxLength;
    i := 0;
    while bits != 0
      invariant 0 <= bits <= desc.maxLength && h == t.heap.Length - i && 0 <= i <= 2 * |g.pairs|
      invariant Settling(t, fc, dl, desc, g, f, i, bits, t.blCount[bits], opt)
      invariant forall x :: 0 <= x < dl.Length && x < g.elems && x !in g.Leaves() ==> dl[x] == old(dl[x])
      decreases bits
    {
      var n := t.blCount[bits];
      while n != 0
        invariant h == t.heap.Length - i && 0 <= i <= 2 * |g.pairs| && Settling(t, fc, dl, desc, g, f, i, bits, n, opt)
        invariant forall x :: 0 <= x < dl.Length && x < g.elems && x !in g.Leaves() ==> dl[x] == old(dl[x])
        decreases 2 * |g.pairs| - i
      {
        SettledMore(g, f, t.blCount[..], dl[..], desc.maxLength, i, bits, n);
        h := h - 1;
        n := SettleNext(t, fc, dl, maxCode, desc, h, bits, n, g, f, i, opt);
        i := i + 1;
      }
      SettledNext(g, f, t.blCount[..], dl[..], desc.maxLength, i, bits);
      bits := bits - 1;
    }
    SettledMore(g, f, t.blCount[..], dl[..], desc.maxLength, i, 0, 0);
  }
}
