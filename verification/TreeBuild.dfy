/** trees.c: building the Huffman tree of a set of frequencies. */
module TreeBuild {
  import opened Bits
  import opened SetSum
  import opened Huffman
  import opened Merging
  import opened Heap

  /** The heap holds exactly the nodes in `s`, each once, least first. */
  ghost predicate HeapIs(h: seq<nat>, len: nat, q: Keys, s: set<nat>)
  {
    Holds(h, len, q) && OrderedFrom(h, len, q, 1) && Nodes(h, len) == multiset(s)
  }

  /** `top` comes before all nodes of `s`. */
  ghost predicate Least(q: Keys, s: set<nat>, top: nat)
  {
    top in s && |q.freq| <= |q.depth| && (forall x :: x in s ==> x < |q.freq|) && forall x :: x in s ==> q.Le(top, x)
  }

  lemma HeapTop(h: seq<nat>, len: nat, q: Keys, s: set<nat>)
    requires HeapIs(h, len, q, s) && len >= 1
    ensures Least(q, s, h[1])
  {
    assert h[1] == h[1..len + 1][0] && h[1] in Nodes(h, len);
    forall x | x in s ensures x < |q.freq| && q.Le(h[1], x) {
      assert x in Nodes(h, len);
      var i :| 0 <= i < len && h[1..len + 1][i] == x;
      TopIsLeast(h, len, q, i + 1);
    }
  }

  lemma DropTop(h: seq<nat>, len: nat)
    requires 1 <= len < |h|
    ensures Nodes(h[1 := h[len]], len - 1) == Nodes(h, len) - multiset{h[1]}
  {
    var g := h[1 := h[len]];
    if len == 1 {
      assert h[1..2] == [h[1]];
    } else {
      assert h[1..len + 1] == [h[1]] + h[2..len] + [h[len]];
      assert g[1..len] == [h[len]] + h[2..len];
    }
  }

  lemma ReplaceTop(h: seq<nat>, len: nat, y: nat)
    requires 1 <= len < |h|
    ensures Nodes(h[1 := y], len) == Nodes(h, len) - multiset{h[1]} + multiset{y}
  {
    assert h[1..len + 1] == [h[1]] + h[2..len + 1];
    assert h[1 := y][1..len + 1] == [y] + h[2..len + 1];
  }

  lemma HeapSize(h: seq<nat>, len: nat, s: set<nat>)
    requires len < |h| && Nodes(h, len) == multiset(s)
    ensures len == |s|
  {
    assert |multiset(h[1..len + 1])| == |multiset(s)| == |s|;
  }

  lemma HeapIsSize(h: seq<nat>, len: nat, q: Keys, s: set<nat>)
    requires HeapIs(h, len, q, s)
    ensures len < |h| && len == |s|
  {
    HeapSize(h, len, s);
  }

  /** Only the active part of the heap and the keys of the nodes in it matter. */
  lemma HeapFrame(h: seq<nat>, h2: seq<nat>, len: nat, q: Keys, q2: Keys, s: set<nat>, n: nat)
    requires HeapIs(h, len, q, s) && IdsBelow(s, n) && n <= |q.freq| <= |q2.freq| <= |q2.depth| && len < |h2|
    requires forall i :: 1 <= i <= len ==> h2[i] == h[i]
    requires forall i :: 0 <= i < n ==> q2.freq[i] == q.freq[i]
    requires forall i :: 0 <= i < n ==> q2.depth[i] == q.depth[i]
    ensures HeapIs(h2, len, q2, s)
  {
    assert h2[1..len + 1] == h[1..len + 1];
    forall i | 1 <= i <= len ensures h[i] < n {
      assert h[i] == h[1..len + 1][i - 1];
      assert h[i] in Nodes(h, len);
    }
  }

  lemma TwoLeastRoots(q: Keys, s: set<nat>, a: nat, b: nat)
    requires Least(q, s, a) && Least(q, s - {a}, b)
    ensures TwoLeast(s, q.freq, a, b)
  {
    forall x | x in s ensures At(q.freq, a) <= At(q.freq, x) { assert q.Le(a, x); }
    forall x | x in s && x != a ensures At(q.freq, b) <= At(q.freq, x) { assert q.Le(b, x); }
  }

  /** Where the merges are recorded: removed nodes from the end of the heap array downwards, and fathers. */
  ghost predicate Recorded(g: Merges, heap: seq<nat>, dl: seq<nat>)
  {
    && 2 * |g.pairs| <= |heap|
    && (forall k :: 0 <= k < |g.pairs| ==>
      heap[|heap| - 1 - 2 * k] == g.pairs[k].0 && heap[|heap| - 2 - 2 * k] == g.pairs[k].1)
    && (forall k :: 0 <= k < |g.pairs| ==> At(dl, g.pairs[k].0) == g.elems + k && At(dl, g.pairs[k].1) == g.elems + k)
  }

  /** A merged node is never a root again. */
  lemma {:induction false} NeverRootAgain(g: Merges, k: nat, j: nat)
    requires g.Valid() && k < j <= |g.pairs|
    ensures g.pairs[k].0 !in g.forests[j] && g.pairs[k].1 !in g.forests[j]
    decreases j
  {
    assert g.Step(j - 1);
    PairIds(g, k);
    if k < j - 1 { NeverRootAgain(g, k, j - 1); }
  }

  /** The symbols among the roots are leaves. */
  lemma {:induction false} LowAreLeaves(g: Merges, k: nat)
    requires g.Valid() && k <= |g.pairs|
    ensures forall x :: x in g.forests[k] && x < g.elems ==> x in g.Leaves()
  {
    if k > 0 {
      LowAreLeaves(g, k - 1);
      assert g.Step(k - 1);
    }
  }

  lemma RecordedStep(g: Merges, heap: seq<nat>, heap2: seq<nat>, dl: seq<nat>, dl2: seq<nat>, a: nat, b: nat)
    requires g.Valid() && Recorded(g, heap, dl) && |heap2| == |heap| && 2 * |g.pairs| + 2 <= |heap|
    requires a in g.Roots() && b in g.Roots() && a < |dl| && b < |dl|
    requires forall i :: |heap| - 2 * |g.pairs| <= i < |heap| ==> heap2[i] == heap[i]
    requires heap2[|heap| - 1 - 2 * |g.pairs|] == a && heap2[|heap| - 2 - 2 * |g.pairs|] == b
    requires dl2 == dl[a := g.elems + |g.pairs|][b := g.elems + |g.pairs|]
    ensures Recorded(g.Add(a, b), heap2, dl2)
  {
    var h, n := g.Add(a, b), |g.pairs|;
    forall k | 0 <= k < n
      ensures At(dl2, h.pairs[k].0) == g.elems + k && At(dl2, h.pairs[k].1) == g.elems + k
    {
      NeverRootAgain(g, k, n);
    }
  }

  lemma RecordedFrame(g: Merges, heap: seq<nat>, heap2: seq<nat>, dl: seq<nat>)
    requires Recorded(g, heap, dl) && |heap2| == |heap|
    requires forall i :: |heap| - 2 * |g.pairs| <= i < |heap| ==> heap2[i] == heap[i]
    ensures Recorded(g, heap2, dl)
  {
  }

  /** The last root left is the node made last. */
  lemma OneRoot(g: Merges, r: nat)
    requires g.Valid() && |g.Roots()| == 1 && |g.pairs| >= 1 && r in g.Roots()
    ensures r == g.elems + |g.pairs| - 1 && g.Roots() == {r} && |g.Leaves()| == |g.pairs| + 1
  {
    var n := |g.pairs|;
    ForestSize(g, n);
    assert g.Step(n - 1);
    var c: nat := g.elems + n - 1;
    assert |g.Roots() - {c}| == 0;
    assert r !in g.Roots() - {c};
  }

  ghost function FreqOf(f: seq<nat>): nat -> int { (x: nat) => At(f, x) }

  lemma TotalStep(g: Merges, f: seq<nat>, f2: seq<nat>, a: nat, b: nat)
    requires g.Valid() && a in g.Roots() && b in g.Roots() && a != b && SameBelow(f, f2, g.elems + |g.pairs|)
    requires At(f2, g.elems + |g.pairs|) == At(f, a) + At(f, b)
    ensures Sum(g.Add(a, b).Roots(), FreqOf(f2)) == Sum(g.Roots(), FreqOf(f))
  {
    assert IdsBelow(g.Roots(), g.elems + |g.pairs|);
    SumAgree(g.Roots(), FreqOf(f), FreqOf(f2));
    SumMerge(g.Roots(), FreqOf(f2), a, b, g.elems + |g.pairs|);
  }

  lemma TwoRoots(s: set<nat>, f: seq<nat>, a: nat, b: nat)
    requires TwoLeast(s, f, a, b)
    ensures a in s && b in s && a != b
  {
  }

  lemma BelowRest(s: set<nat>, n: nat, x: nat)
    requires IdsBelow(s, n)
    ensures IdsBelow(s - {x}, n) && n !in s - {x}
  {
  }

  lemma FreqBound(s: set<nat>, f: seq<nat>, a: nat, b: nat)
    requires TwoLeast(s, f, a, b)
    ensures At(f, a) + At(f, b) <= Sum(s, FreqOf(f))
  {
    SumPair(s, FreqOf(f), a, b);
  }

  /** Symbols below `n` of nonzero frequency. */
  ghost function Used(f: seq<nat>, n: nat): set<nat> { set x: nat | x < n && At(f, x) != 0 }

  ghost predicate IsMaxCode(m: int, s: set<nat>)
  {
    m >= -1 && (forall x :: x in s ==> x <= m) && (m >= 0 ==> m in s)
  }

  lemma MaxCodeExists(s: set<nat>, m: int)
    requires IsMaxCode(m, s) && |s| >= 1
    ensures m >= 0
  {
    var x :| x in s;
  }

  lemma UsedStep(f: seq<nat>, n: nat)
    requires n < |f|
    ensures Used(f, n + 1) == if f[n] != 0 then Used(f, n) + {n} else Used(f, n)
    ensures n !in Used(f, n) && IsMaxCode(n, Used(f, n) + {n})
  {
  }

  lemma NothingUsed(h: seq<nat>, f: seq<nat>)
    requires |h| > 0
    ensures Nodes(h, 0) == multiset(Used(f, 0)) && IsMaxCode(-1, Used(f, 0))
  {
    assert Used(f, 0) == {};
  }

  lemma PushNode(h: seq<nat>, len: nat, s: set<nat>, x: nat)
    requires len + 1 < |h| && Nodes(h, len) == multiset(s) && x !in s
    ensures Nodes(h[len + 1 := x], len + 1) == multiset(s + {x})
  {
    assert h[len + 1 := x][1..len + 2] == h[1..len + 1] + [x];
    assert multiset(s) + multiset{x} == multiset(s + {x});
  }

  /** Symbol `node` had frequency zero and has been given one. */
  ghost predicate OneForced(f: seq<nat>, f2: seq<nat>, node: nat)
  {
    node < |f| && f[node] == 0 && f2 == f[node := 1]
  }

  lemma UsedForced(f: seq<nat>, f2: seq<nat>, elems: nat, node: nat)
    requires OneForced(f, f2, node) && node < elems
    ensures Used(f2, elems) == Used(f, elems) + {node}
  {
  }

  /** The code forced next is a new one. */
  lemma NextForced(f: seq<nat>, elems: nat, maxCode: int, node: nat, maxCode2: int)
    requires IsMaxCode(maxCode, Used(f, elems)) && |Used(f, elems)| < 2 && 3 <= elems <= |f|
    requires if maxCode < 2 then node == maxCode2 == maxCode + 1 else node == 0 && maxCode2 == maxCode
    ensures node !in Used(f, elems) && OneForced(f, f[node := 1], node)
    ensures Used(f[node := 1], elems) == Used(f, elems) + {node}
    ensures IsMaxCode(maxCode2, Used(f, elems) + {node})
  {
    if maxCode >= 0 { NotBoth(Used(f, elems), node, maxCode); }
  }

  lemma NotBoth(s: set<nat>, x: nat, y: nat)
    ensures |s| < 2 && x in s && y in s ==> x == y
  {
    if x in s && y in s {
      assert |s - {x}| == |s| - 1;
      assert y in s - {x} || y == x;
    }
  }

  /** The symbols in `extra` had frequency zero and got one, which happens only to make two symbols in all. */
  ghost predicate Forced(f: seq<nat>, f2: seq<nat>, elems: nat, extra: set<nat>)
  {
    && |f2| == |f| && IdsBelow(extra, 3) && (extra != {} ==> |Used(f2, elems)| <= 2)
    && Used(f2, elems) == Used(f, elems) + extra
    && (forall x :: x in extra ==> x < |f| && f[x] == 0)
    && (forall x :: 0 <= x < |f| ==> f2[x] == (if x in extra then 1 else f[x]))
  }

  function AtIn(s: seq<nat>): nat -> int { (x: nat) => At(s, x) }

  lemma ForcedStep(f: seq<nat>, f1: seq<nat>, f2: seq<nat>, elems: nat, extra: set<nat>, node: nat)
    requires 3 <= elems <= |f| && Forced(f, f1, elems, extra) && OneForced(f1, f2, node) && node <= 2
    requires |Used(f2, elems)| <= 2
    ensures Forced(f, f2, elems, extra + {node}) && node !in extra
  {
    hide Used;
    var e := extra + {node};
    UsedForced(f1, f2, elems, node);
    assert Used(f, elems) + extra + {node} == Used(f, elems) + e;
    assert forall x :: x in e ==> x in extra || x == node;
    assert forall x :: 0 <= x < |f| ==> f2[x] == (if x in e then 1 else f[x]);
  }

  lemma {:induction false} ForcedTotal(f: seq<nat>, f2: seq<nat>, s: set<nat>, extra: set<nat>)
    requires s !! extra && (forall x :: x in s ==> At(f2, x) == At(f, x)) && forall x :: x in extra ==> At(f2, x) == 1
    ensures Sum(s + extra, FreqOf(f2)) == Sum(s, FreqOf(f)) + |extra|
    decreases |extra|
  {
    hide Sum;
    if extra == {} {
      assert s + extra == s;
      SumAgree(s, FreqOf(f), FreqOf(f2));
    } else {
      var x :| x in extra;
      ForcedTotal(f, f2, s, extra - {x});
      SumAdd(s + (extra - {x}), FreqOf(f2), x);
      assert s + (extra - {x}) + {x} == s + extra;
    }
  }

  lemma ForcedBound(f: seq<nat>, f2: seq<nat>, elems: nat, extra: set<nat>)
    requires Forced(f, f2, elems, extra)
    ensures |extra| <= 2 && Sum(Used(f2, elems), FreqOf(f2)) == Sum(Used(f, elems), FreqOf(f)) + |extra|
  {
    ForcedTotal(f, f2, Used(f, elems), extra);
    Within(extra, Used(f2, elems));
  }

  lemma Within(s: set<nat>, t: set<nat>)
    requires s <= t
    ensures |s| <= |t|
  {
    assert t == s + (t - s);
  }

  lemma {:induction false} UsedSize(f: seq<nat>, n: nat)
    requires n <= |f|
    ensures |Used(f, n)| <= n && IdsBelow(Used(f, n), n)
    ensures forall x :: x in Used(f, n) ==> f[x] != 0
  {
    if n > 0 {
      UsedSize(f, n - 1);
      UsedStep(f, n - 1);
    }
  }

  lemma ForcedSum(extra: set<nat>, node: nat, sl: seq<nat>)
    requires node !in extra
    ensures |extra + {node}| == |extra| + 1
    ensures Sum(extra + {node}, AtIn(sl)) == Sum(extra, AtIn(sl)) + At(sl, node)
  {
    SumAdd(extra, AtIn(sl), node);
  }

  lemma HoldsNodes(h: seq<nat>, len: nat, q: Keys, s: set<nat>)
    requires len < |h| && Nodes(h, len) == multiset(s) && IdsBelow(s, |q.freq|) && |q.freq| <= |q.depth|
    ensures Holds(h, len, q)
  {
    forall i | 1 <= i <= len ensures h[i] < |q.freq| {
      assert h[i] == h[1..len + 1][i - 1];
      assert h[i] in Nodes(h, len);
    }
  }

  /** State of `build_tree`: the heap array with its active part and its sorted part, and subtree depths. */
  class TreeState {
    const heap: array<nat>
    const depth: array<nat>
    const blCount: array<nat>
    var heapLen: nat
    var heapMax: nat
    var optLen: int
    var staticLen: int

    constructor (heapSize: nat)
      ensures fresh(heap) && fresh(depth) && fresh(blCount) && heap != depth && heap != blCount && depth != blCount
      ensures heap.Length == heapSize == depth.Length && blCount.Length == 16
    {
      heap := new nat[heapSize];
      depth := new nat[heapSize];
      blCount := new nat[16];
    }

    /** Take the least node out of the heap. */
    method PqRemove(fc: array<nat>, ghost s: set<nat>) returns (top: nat)
      requires heap != fc && heap != depth && heapLen >= 2
      requires HeapIs(heap[..], heapLen, Keys(fc[..], depth[..]), s)
      modifies this`heapLen, heap
      ensures heapLen == old(heapLen) - 1 && top in s && HeapIs(heap[..], heapLen, Keys(fc[..], depth[..]), s - {top})
      ensures Least(Keys(fc[..], depth[..]), s, top)
      ensures forall i :: old(heapLen) < i < heap.Length ==> heap[i] == old(heap[i])
    {
      hide Nodes;
      ghost var h, q := heap[..], Keys(fc[..], depth[..]);
      HeapTop(h, heapLen, q, s);
      DropTop(h, heapLen);
      top := heap[1];
      heap[1] := heap[heapLen];
      heapLen := heapLen - 1;
      assert heap[..] == h[1 := h[heapLen + 1]];
      PqDownHeap(heap, heapLen, fc, depth, 1);
      assert multiset(s) - multiset{top} == multiset(s - {top});
    }

    /** Put a node in the place of the least one. */
    method PqReplace(fc: array<nat>, node: nat, ghost s: set<nat>, ghost top: nat)
      requires heap != fc && heap != depth && heapLen >= 1 && node < fc.Length && node !in s
      requires HeapIs(heap[..], heapLen, Keys(fc[..], depth[..]), s) && heap[1] == top
      modifies heap
      ensures HeapIs(heap[..], heapLen, Keys(fc[..], depth[..]), s - {top} + {node})
      ensures forall i :: heapLen < i < heap.Length ==> heap[i] == old(heap[i])
    {
      hide Nodes;
      ghost var h, q := heap[..], Keys(fc[..], depth[..]);
      HeapTop(h, heapLen, q, s);
      ReplaceTop(h, heapLen, node);
      heap[1] := node;
      assert heap[..] == h[1 := node];
      PqDownHeap(heap, heapLen, fc, depth, 1);
      assert multiset(s) - multiset{top} + multiset{node} == multiset(s - {top} + {node});
    }

    /** The state between two merges: `g` records the merges, `f0` the frequencies before the first. */
    ghost predicate Building(g: Merges, f0: seq<nat>, fc: array<nat>, dl: array<nat>)
      reads this, heap, depth, fc, dl
    {
      && heap != depth && heap != fc && heap != dl && depth != fc && depth != dl && fc != dl
      && 2 * g.elems <= fc.Length == dl.Length <= depth.Length && 2 * g.elems + 1 <= heap.Length
      && g.Valid() && Progress(g, f0, fc[..]) && Recorded(g, heap[..], dl[..])
      && |g.Leaves()| <= g.elems && heapMax == heap.Length - 2 * |g.pairs|
      && HeapIs(heap[..], heapLen, Keys(fc[..], depth[..]), g.Roots())
      && Sum(g.Roots(), FreqOf(fc[..])) <= 0xffff
    }

    /** The finished tree: one root, and every node sorted by the order it was merged in. */
    ghost predicate Built(g: Merges, f0: seq<nat>, fc: array<nat>, dl: array<nat>)
      reads this, heap, depth, fc, dl
    {
      && heap != depth && heap != fc && heap != dl && depth != fc && depth != dl && fc != dl
      && 2 * g.elems <= fc.Length == dl.Length <= depth.Length && 2 * g.elems + 1 <= heap.Length
      && g.Valid() && Progress(g, f0, fc[..]) && Recorded(g, heap[..], dl[..])
      && |g.Leaves()| <= g.elems && |g.pairs| >= 1 && heapMax == heap.Length - 2 * |g.pairs| - 1
      && g.Roots() == {g.elems + |g.pairs| - 1} && heap[heapMax] == g.elems + |g.pairs| - 1
    }

    /** Store `n` and `m` as sorted and make `node` their father. */
    method Join(fc: array<nat>, dl: array<nat>, node: nat, n: nat, m: nat)
      requires heap != depth && heap != fc && heap != dl && depth != fc && depth != dl && fc != dl
      requires n < node < fc.Length == dl.Length <= depth.Length && m < node && 2 <= heapMax <= heap.Length
      modifies this`heapMax, heap, depth, fc, dl
      ensures heapMax == old(heapMax) - 2 && heap[..] == old(heap[..])[heapMax + 1 := n][heapMax := m]
      ensures fc[..] == old(fc[..])[node := U16(old(fc[n] + fc[m]))] && dl[..] == old(dl[..])[n := node][m := node]
      ensures forall i :: 0 <= i < depth.Length && i != node ==> depth[i] == old(depth[i])
    {
      heapMax := heapMax - 1;
      heap[heapMax] := n;
      heapMax := heapMax - 1;
      heap[heapMax] := m;
      fc[node] := U16(fc[n] + fc[m]);
      depth[node] := ((if depth[n] >= depth[m] then depth[n] else depth[m]) + 1) % 256;
      dl[n] := node;
      dl[m] := node;
    }

    /** Take the least frequent node off the heap, and look at the next. */
    method LeastTwo(fc: array<nat>, ghost s: set<nat>, ghost node: nat) returns (n: nat, m: nat)
      requires heap != fc && heap != depth && heapLen >= 2 && HeapIs(heap[..], heapLen, Keys(fc[..], depth[..]), s)
        && IdsBelow(s, node)
      modifies this`heapLen, heap
      ensures 1 <= heapLen == old(heapLen) - 1 && heapLen < heap.Length
        && HeapIs(heap[..], heapLen, Keys(fc[..], depth[..]), s - {n})
      ensures heap[1] == m && TwoLeast(s, fc[..], n, m) && n < node && m < node
      ensures forall i :: old(heapLen) < i < heap.Length ==> heap[i] == old(heap[i])
    {
      hide HeapIs;
      n := PqRemove(fc, s);
      HeapIsSize(heap[..], heapLen, Keys(fc[..], depth[..]), s - {n});
      HeapTop(heap[..], heapLen, Keys(fc[..], depth[..]), s - {n});
      m := heap[1];
      TwoLeastRoots(Keys(fc[..], depth[..]), s, n, m);
    }

    /** Take the two nodes of least frequency off the heap, and join them under a new node. */
    method JoinLeast(fc: array<nat>, dl: array<nat>, node: nat, ghost g: Merges, ghost f0: seq<nat>)
      returns (n: nat, m: nat)
      requires Building(g, f0, fc, dl) && heapLen >= 2 && node == g.elems + |g.pairs| && |g.pairs| < g.elems
        && IdsBelow(g.Roots(), node)
      modifies this`heapLen, this`heapMax, heap, depth, fc, dl
      ensures heapLen == old(heapLen) - 1 >= 1 && heapMax == old(heapMax) - 2 && n < node && m < node
      ensures HeapIs(heap[..], heapLen, Keys(fc[..], depth[..]), g.Roots() - {n}) && heap[1] == m
      ensures TwoLeast(g.Roots(), old(fc[..]), n, m)
      ensures heap[heapMax + 1] == n && heap[heapMax] == m
        && forall i :: old(heapMax) <= i < heap.Length ==> heap[i] == old(heap[i])
      ensures fc[..] == old(fc[..])[node := U16(old(fc[n] + fc[m]))] && dl[..] == old(dl[..])[n := node][m := node]
    {
      hide Progress, Recorded, HeapIs, Sum, FreqOf, Merges.Step, TwoLeast, IdsBelow;
      ghost var s, q := g.Roots(), Keys(fc[..], depth[..]);
      HeapIsSize(heap[..], heapLen, q, s);
      ForestSize(g, |g.pairs|);
      n, m := LeastTwo(fc, s, node);
      ghost var h := heap[..];
      BelowRest(s, node, n);
      Join(fc, dl, node, n, m);
      HeapFrame(h, heap[..], heapLen, q, Keys(fc[..], depth[..]), s - {n}, node);
    }

    /** Combine the two least frequent nodes under a new one. */
    method MergeOnce(fc: array<nat>, dl: array<nat>, node: nat, ghost g: Merges, ghost f0: seq<nat>)
      returns (ghost g2: Merges)
      requires Building(g, f0, fc, dl) && heapLen >= 2 && node == g.elems + |g.pairs|
      modifies this`heapLen, this`heapMax, heap, depth, fc, dl
      ensures Building(g2, f0, fc, dl) && heapLen == old(heapLen) - 1
      ensures g2.elems == g.elems && |g2.pairs| == |g.pairs| + 1 && g2.Leaves() == g.Leaves()
      ensures forall i :: 0 <= i < g.elems ==> fc[i] == old(fc[i])
      ensures forall i :: 0 <= i < g.elems && i !in g.Leaves() ==> dl[i] == old(dl[i])
    {
      hide Progress, Recorded, HeapIs, Sum, FreqOf, Merges.Step, TwoLeast;
      LowAreLeaves(g, |g.pairs|);
      ghost var s, f, h, l := g.Roots(), fc[..], heap[..], dl[..];
      HeapIsSize(h, heapLen, Keys(f, depth[..]), s);
      ForestSize(g, |g.pairs|);
      assert IdsBelow(s, node);
      var n, m := JoinLeast(fc, dl, node, g, f0);
      TwoRoots(s, f, n, m);
      FreqBound(s, f, n, m);
      ProgressStep(g, f0, f, fc[..], n, m);
      TotalStep(g, f, fc[..], n, m);
      PqReplace(fc, node, s - {n}, m);
      RecordedStep(g, h, heap[..], l, dl[..], n, m);
      AddValid(g, n, m);
      g2 := g.Add(n, m);
    }

    /** Put every symbol of nonzero frequency on the heap array, and clear the lengths of the others. */
    method CollectSymbols(fc: array<nat>, dl: array<nat>, elems: nat) returns (maxCode: int)
      requires heap != depth && heap != fc && heap != dl && depth != fc && depth != dl && fc != dl
      requires elems <= fc.Length == dl.Length <= depth.Length && elems < heap.Length
      modifies this`heapLen, this`heapMax, heap, depth, dl
      ensures heapMax == heap.Length && heapLen <= elems && Nodes(heap[..], heapLen) == multiset(Used(fc[..], elems))
      ensures IsMaxCode(maxCode, Used(fc[..], elems))
      ensures forall x :: 0 <= x < elems && fc[x] == 0 ==> dl[x] == 0
    {
      hide Nodes, Used, IsMaxCode;
      heapLen, heapMax := 0, heap.Length;
      assert Nodes(heap[..], 0) == multiset(Used(fc[..], 0)) && IsMaxCode(-1, Used(fc[..], 0))
        by { NothingUsed(heap[..], fc[..]); }
      maxCode := -1;
      var n: nat := 0;
      while n < elems
        invariant n <= elems && heapLen <= n && heapMax == heap.Length
        invariant Nodes(heap[..], heapLen) == multiset(Used(fc[..], n)) && IsMaxCode(maxCode, Used(fc[..], n))
        invariant forall x :: 0 <= x < n && fc[x] == 0 ==> dl[x] == 0
      {
        ghost var h := heap[..];
        UsedStep(fc[..], n);
        if fc[n] != 0 {
          heapLen, maxCode := heapLen + 1, n;
          heap[heapLen] := n;
          PushNode(h, heapLen - 1, Used(fc[..], n), n);
          assert heap[..] == h[heapLen := n];
          depth[n] := 0;
        } else {
          dl[n] := 0;
        }
        n := n + 1;
      }
    }

    /** Force a symbol on the heap, with frequency one; it takes one bit, which is not counted. */
    method ForceCode(fc: array<nat>, elems: nat, sl: seq<nat>, maxCode0: int) returns (maxCode: int, node: nat)
      requires heap != depth && heap != fc && depth != fc
      requires 3 <= elems <= fc.Length <= depth.Length && elems < heap.Length && heapLen < 2
      requires Nodes(heap[..], heapLen) == multiset(Used(fc[..], elems)) && heapLen == |Used(fc[..], elems)|
      requires IsMaxCode(maxCode0, Used(fc[..], elems))
      modifies this`heapLen, this`optLen, this`staticLen, heap, depth, fc
      ensures heapLen == old(heapLen) + 1 && Nodes(heap[..], heapLen) == multiset(Used(fc[..], elems))
      ensures IsMaxCode(maxCode, Used(fc[..], elems)) && heapLen == |Used(fc[..], elems)|
      ensures node <= 2 && OneForced(old(fc[..]), fc[..], node)
      ensures optLen == old(optLen) - 1 && staticLen == old(staticLen) - At(sl, node)
    {
      hide Nodes, Used;
      ghost var h, f := heap[..], fc[..];
      if maxCode0 < 2 { maxCode := maxCode0 + 1; node := maxCode; } else { maxCode, node := maxCode0, 0; }
      NextForced(f, elems, maxCode0, node, maxCode);
      heapLen := heapLen + 1;
      heap[heapLen] := node;
      fc[node] := 1;
      depth[node] := 0;
      optLen := optLen - 1;
      staticLen := staticLen - At(sl, node);
      PushNode(h, heapLen - 1, Used(f, elems), node);
      assert heap[..] == h[heapLen := node] && fc[..] == f[node := 1];
    }

    method Heapify(fc: array<nat>, ghost s: set<nat>)
      requires heap != depth && heap != fc && fc.Length <= depth.Length && heapLen < heap.Length
      requires Nodes(heap[..], heapLen) == multiset(s) && IdsBelow(s, fc.Length)
      modifies heap
      ensures HeapIs(heap[..], heapLen, Keys(fc[..], depth[..]), s)
    {
      HoldsNodes(heap[..], heapLen, Keys(fc[..], depth[..]), s);
      var n := heapLen / 2;
      while n >= 1
        invariant 0 <= n <= heapLen / 2 && Nodes(heap[..], heapLen) == multiset(s)
        invariant Holds(heap[..], heapLen, Keys(fc[..], depth[..]))
        invariant OrderedFrom(heap[..], heapLen, Keys(fc[..], depth[..]), n + 1)
      {
        PqDownHeap(heap, heapLen, fc, depth, n);
        n := n - 1;
      }
    }

    /** Force codes until there are two. */
    method ForceTwo(fc: array<nat>, elems: nat, sl: seq<nat>, maxCode0: int)
      returns (maxCode: int, ghost extra: set<nat>)
      requires heap != depth && heap != fc && depth != fc
      requires 3 <= elems <= fc.Length <= depth.Length && elems < heap.Length
      requires heapLen <= elems && Nodes(heap[..], heapLen) == multiset(Used(fc[..], elems))
      requires IsMaxCode(maxCode0, Used(fc[..], elems))
      modifies this`heapLen, this`optLen, this`staticLen, heap, depth, fc
      ensures 2 <= heapLen <= elems && Nodes(heap[..], heapLen) == multiset(Used(fc[..], elems))
      ensures IsMaxCode(maxCode, Used(fc[..], elems)) && Forced(old(fc[..]), fc[..], elems, extra)
      ensures optLen == old(optLen) - |extra| && staticLen == old(staticLen) - Sum(extra, AtIn(sl))
    {
      hide Nodes, Used, IsMaxCode;
      HeapSize(heap[..], heapLen, Used(fc[..], elems));
      maxCode, extra := maxCode0, {};
      while heapLen < 2
        invariant heapLen <= elems && Nodes(heap[..], heapLen) == multiset(Used(fc[..], elems))
          && heapLen == |Used(fc[..], elems)|
        invariant IsMaxCode(maxCode, Used(fc[..], elems)) && Forced(old(fc[..]), fc[..], elems, extra)
        invariant optLen == old(optLen) - |extra| && staticLen == old(staticLen) - Sum(extra, AtIn(sl))
      {
        ghost var f1 := fc[..];
        var node;
        maxCode, node := ForceCode(fc, elems, sl, maxCode);
        ForcedStep(old(fc[..]), f1, fc[..], elems, extra, node);
        ForcedSum(extra, node, sl);
        extra := extra + {node};
      }
    }

    /** Build the tree: merge until one root is left, and store it before the sorted nodes. */
    method MergeAll(fc: array<nat>, dl: array<nat>, elems: nat, ghost g0: Merges, ghost f0: seq<nat>)
      returns (ghost g: Merges)
      requires Building(g0, f0, fc, dl) && heapLen >= 2 && g0.pairs == [] && g0.elems == elems
      modifies this`heapLen, this`heapMax, heap, depth, fc, dl
      ensures Built(g, f0, fc, dl) && g.elems == g0.elems && g.Leaves() == g0.Leaves()
      ensures forall i :: 0 <= i < g.elems ==> fc[i] == old(fc[i])
      ensures forall i :: 0 <= i < g.elems && i !in g.Leaves() ==> dl[i] == old(dl[i])
    {
      hide Progress, Recorded, OrderedFrom, Nodes, Sum, FreqOf, Merges.Step;
      g := g0;
      var node := elems;
      while true
        invariant Building(g, f0, fc, dl) && heapLen >= 2 && node == g.elems + |g.pairs|
        invariant g.elems == g0.elems && g.Leaves() == g0.Leaves()
        invariant forall i :: 0 <= i < g.elems ==> fc[i] == old(fc[i])
        invariant forall i :: 0 <= i < g.elems && i !in g.Leaves() ==> dl[i] == old(dl[i])
        decreases heapLen
      {
        g := MergeOnce(fc, dl, node, g, f0);
        node := node + 1;
        if !(heapLen >= 2) { break; }
      }
      ghost var h := heap[..];
      HeapSize(h, heapLen, g.Roots());
      HeapTop(h, heapLen, Keys(fc[..], depth[..]), g.Roots());
      OneRoot(g, heap[1]);
      heapMax := heapMax - 1;
      heap[heapMax] := heap[1];
      RecordedFrame(g, h, heap[..], dl[..]);
    }

    /** Collect the symbols, at least two, in a heap. */
    method InitHeap(fc: array<nat>, dl: array<nat>, elems: nat, sl: seq<nat>)
      returns (maxCode: nat, ghost extra: set<nat>)
      requires heap != depth && heap != fc && heap != dl && depth != fc && depth != dl && fc != dl
      requires 3 <= elems <= fc.Length == dl.Length <= depth.Length && elems < heap.Length
      modifies this, heap, depth, fc, dl
      ensures HeapIs(heap[..], heapLen, Keys(fc[..], depth[..]), Used(fc[..], elems)) && heapLen >= 2
        && heapMax == heap.Length
      ensures Forced(old(fc[..]), fc[..], elems, extra) && IsMaxCode(maxCode, Used(fc[..], elems))
      ensures forall x :: 0 <= x < elems && fc[x] == 0 ==> dl[x] == 0
      ensures optLen == old(optLen) - |extra| && staticLen == old(staticLen) - Sum(extra, AtIn(sl))
    {
      hide Used, HeapIs, Nodes, OrderedFrom, Sum, AtIn;
      var max := CollectSymbols(fc, dl, elems);
      max, extra := ForceTwo(fc, elems, sl, max);
      UsedSize(fc[..], elems);
      HeapSize(heap[..], heapLen, Used(fc[..], elems));
      MaxCodeExists(Used(fc[..], elems), max);
      maxCode := max;
      Heapify(fc, Used(fc[..], elems));
    }

    /** From frequencies to the finished tree; `f` is the table of frequencies after forcing. */
    method MakeTree(fc: array<nat>, dl: array<nat>, elems: nat, sl: seq<nat>)
      returns (maxCode: nat, ghost g: Merges, ghost f: seq<nat>, ghost extra: set<nat>)
      requires heap != depth && heap != fc && heap != dl && depth != fc && depth != dl && fc != dl
      requires 3 <= elems && 2 * elems <= fc.Length == dl.Length <= depth.Length && 2 * elems + 1 <= heap.Length
      requires Sum(Used(fc[..], elems), FreqOf(fc[..])) <= 0xfffd
      modifies this, heap, depth, fc, dl
      ensures Built(g, f, fc, dl) && g.elems == elems && g.Leaves() == Used(f, elems)
      ensures Forced(old(fc[..]), f, elems, extra) && IsMaxCode(maxCode, Used(f, elems))
      ensures |f| == fc.Length && forall x :: 0 <= x < elems ==> fc[x] == f[x]
      ensures forall x :: 0 <= x < elems && f[x] == 0 ==> dl[x] == 0
      ensures optLen == old(optLen) - |extra| && staticLen == old(staticLen) - Sum(extra, AtIn(sl))
    {
      hide Used, Progress, HeapIs, FreqOf, Sum, AtIn, Forced, IsMaxCode;
      maxCode, extra := InitHeap(fc, dl, elems, sl);
      f := fc[..];
      ForcedBound(old(fc[..]), f, elems, extra);
      UsedSize(f, elems);
      ProgressStart(elems, Used(f, elems), f);
      ghost var g0 := Merges(elems, [], [Used(f, elems)]);
      assert g0.Leaves() == g0.Roots() == Used(f, elems);
      g := MergeAll(fc, dl, elems, g0, f);
    }
  }
}
