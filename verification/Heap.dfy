/** trees.c: the priority queue of tree nodes, keyed by frequency and then by depth. */
module Heap {
  /** Frequency and depth of every node. */
  datatype Keys = Keys(freq: seq<nat>, depth: seq<nat>)
  {
    /** The `smaller` test: node `n` does not come after node `m`. */
    predicate Le(n: nat, m: nat)
      requires n < |freq| <= |depth| && m < |freq|
    {
      freq[n] < freq[m] || (freq[n] == freq[m] && depth[n] <= depth[m])
    }
  }

  /** Heap positions 1 to `len` hold nodes. */
  ghost predicate Holds(h: seq<nat>, len: nat, q: Keys)
  {
    len < |h| && |q.freq| <= |q.depth| && forall i :: 1 <= i <= len ==> h[i] < |q.freq|
  }

  /** Fathers from position `k` on come before their sons. */
  ghost predicate OrderedFrom(h: seq<nat>, len: nat, q: Keys, k: nat)
    requires Holds(h, len, q)
  {
    forall i :: 2 <= i <= len && i / 2 >= k ==> q.Le(h[i / 2], h[i])
  }

  /** The same, but for the sons of the hole at `k`, which the father of the hole still precedes. */
  ghost predicate OrderedBut(h: seq<nat>, len: nat, q: Keys, k0: nat, k: nat)
    requires Holds(h, len, q)
  {
    && (forall i :: 2 <= i <= len && i / 2 >= k0 && i / 2 != k ==> q.Le(h[i / 2], h[i]))
    && (forall i :: 2 <= i <= len && i / 2 == k && k / 2 >= k0 && k >= 2 ==> q.Le(h[k / 2], h[i]))
  }

  function Swapped(h: seq<nat>, i: nat, j: nat): seq<nat>
    requires i < |h| && j < |h|
  {
    h[i := h[j]][j := h[i]]
  }

  /** The nodes in the heap. */
  ghost function Nodes(h: seq<nat>, len: nat): multiset<nat>
    requires len < |h|
  {
    multiset(h[1..len + 1])
  }

  lemma SwapKeepsNodes(h: seq<nat>, len: nat, i: nat, j: nat)
    requires 1 <= i <= len < |h| && 1 <= j <= len
    ensures Nodes(Swapped(h, i, j), len) == Nodes(h, len)
  {
    var s := h[1..len + 1];
    assert Swapped(h, i, j)[1..len + 1] == s[i - 1 := s[j - 1]][j - 1 := s[i - 1]];
  }

  /** Moving the smaller son up and the hole down. */
  lemma SiftStep(h: seq<nat>, len: nat, q: Keys, k0: nat, k: nat, j: nat)
    requires Holds(h, len, q) && 1 <= k0 <= k && OrderedBut(h, len, q, k0, k)
    requires j / 2 == k && 2 <= j <= len && q.Le(h[j], h[k])
    requires forall i :: 2 <= i <= len && i / 2 == k ==> q.Le(h[j], h[i])
    ensures Holds(Swapped(h, k, j), len, q) && OrderedBut(Swapped(h, k, j), len, q, k0, j)
  {
    var g := Swapped(h, k, j);
    assert Holds(g, len, q);
    forall i | 2 <= i <= len && i / 2 >= k0 && i / 2 != j ensures q.Le(g[i / 2], g[i]) {
      if i / 2 == k { } else if i == k { assert q.Le(h[k / 2], h[j]); } else { assert q.Le(h[i / 2], h[i]); }
    }
    forall i | 2 <= i <= len && i / 2 == j ensures q.Le(g[j / 2], g[i]) {
      assert q.Le(h[i / 2], h[i]);
    }
  }

  /** Once the hole's value precedes its sons, the order is restored. */
  lemma SiftDone(h: seq<nat>, len: nat, q: Keys, k0: nat, k: nat)
    requires Holds(h, len, q) && OrderedBut(h, len, q, k0, k)
    requires forall i :: 2 <= i <= len && i / 2 == k ==> q.Le(h[k], h[i])
    ensures OrderedFrom(h, len, q, k0)
  {
  }

  lemma SiftStart(h: seq<nat>, len: nat, q: Keys, k: nat)
    requires Holds(h, len, q) && OrderedFrom(h, len, q, k + 1)
    ensures OrderedBut(h, len, q, k, k)
  {
  }

  /** The son of `k` that comes first. */
  method SmallerSon(heap: array<nat>, heapLen: nat, freq: array<nat>, depth: array<nat>, k: nat) returns (j: nat)
    requires Holds(heap[..], heapLen, Keys(freq[..], depth[..])) && 1 <= k && 2 * k <= heapLen
    ensures 2 * k <= j <= heapLen && j / 2 == k
    ensures forall i :: 2 <= i <= heapLen && i / 2 == k ==> Keys(freq[..], depth[..]).Le(heap[j], heap[i])
  {
    j := k * 2;
    if j < heapLen && (freq[heap[j + 1]] < freq[heap[j]]
                       || (freq[heap[j + 1]] == freq[heap[j]] && depth[heap[j + 1]] <= depth[heap[j]])) {
      j := j + 1;
    }
    assert forall i :: 2 <= i <= heapLen && i / 2 == k ==> i == 2 * k || i == 2 * k + 1;
  }

  /** Move the node at `k` down until it precedes its sons. */
  method PqDownHeap(heap: array<nat>, heapLen: nat, freq: array<nat>, depth: array<nat>, k0: nat)
    requires heap != freq && heap != depth && 1 <= k0 <= heapLen
    requires Holds(heap[..], heapLen, Keys(freq[..], depth[..]))
    requires OrderedFrom(heap[..], heapLen, Keys(freq[..], depth[..]), k0 + 1)
    modifies heap
    ensures Holds(heap[..], heapLen, Keys(freq[..], depth[..]))
    ensures OrderedFrom(heap[..], heapLen, Keys(freq[..], depth[..]), k0)
    ensures Nodes(heap[..], heapLen) == Nodes(old(heap[..]), heapLen)
    ensures forall i :: 0 <= i < heap.Length && !(1 <= i <= heapLen) ==> heap[i] == old(heap[i])
  {
    hide Nodes, OrderedFrom, OrderedBut;
    ghost var q := Keys(freq[..], depth[..]);
    var k := k0;
    var v := heap[k];
    ghost var h := heap[..];     // the heap with v in the hole at k
    SiftStart(h, heapLen, q, k);
    while 2 * k <= heapLen
      invariant 1 <= k0 <= k <= heapLen && Keys(freq[..], depth[..]) == q
      invariant |h| == heap.Length && h[k] == v && heap[..] == h[k := heap[k]] && heap[k] < |q.freq|
      invariant Holds(h, heapLen, q) && OrderedBut(h, heapLen, q, k0, k)
      invariant Nodes(h, heapLen) == Nodes(old(heap[..]), heapLen)
      invariant forall i :: 0 <= i < heap.Length && !(1 <= i <= heapLen) ==> h[i] == old(heap[i])
      decreases heapLen - k
    {
      var j := SmallerSon(heap, heapLen, freq, depth, k);
      SameSons(h, heap[..], heapLen, q, k, j);
      if freq[v] < freq[heap[j]] || (freq[v] == freq[heap[j]] && depth[v] <= depth[heap[j]]) {
        SonsFollow(h, heapLen, q, k, j);
        break;
      }
      SiftStep(h, heapLen, q, k0, k, j);
      SwapKeepsNodes(h, heapLen, k, j);
      h := Swapped(h, k, j);
      heap[k] := heap[j];
      k := j;
    }
    SiftDone(h, heapLen, q, k0, k);
    heap[k] := v;
    assert heap[..] == h;
  }

  lemma SameSons(h: seq<nat>, h2: seq<nat>, len: nat, q: Keys, k: nat, j: nat)
    requires Holds(h, len, q) && Holds(h2, len, q) && |h| == |h2| && 1 <= k <= len && h2 == h[k := h2[k]]
      && 2 <= j <= len && j / 2 == k
    requires forall i :: 2 <= i <= len && i / 2 == k ==> q.Le(h2[j], h2[i])
    ensures h2[j] == h[j] && forall i :: 2 <= i <= len && i / 2 == k ==> q.Le(h[j], h[i])
  {
    forall i | 2 <= i <= len && i / 2 == k ensures q.Le(h[j], h[i]) { assert q.Le(h2[j], h2[i]) && h2[i] == h[i]; }
  }

  lemma SonsFollow(h: seq<nat>, len: nat, q: Keys, k: nat, j: nat)
    requires Holds(h, len, q) && 1 <= k <= len && 2 <= j <= len && q.Le(h[k], h[j])
    requires forall i :: 2 <= i <= len && i / 2 == k ==> q.Le(h[j], h[i])
    ensures forall i :: 2 <= i <= len && i / 2 == k ==> q.Le(h[k], h[i])
  {
    forall i | 2 <= i <= len && i / 2 == k ensures q.Le(h[k], h[i]) { assert q.Le(h[j], h[i]); }
  }

  /** The node at the top precedes every node. */
  lemma {:induction false} TopIsLeast(h: seq<nat>, len: nat, q: Keys, i: nat)
    requires Holds(h, len, q) && OrderedFrom(h, len, q, 1) && 1 <= i <= len
    ensures q.Le(h[1], h[i])
  {
    if i > 1 {
      TopIsLeast(h, len, q, i / 2);
      assert q.Le(h[i / 2], h[i]);
    }
  }
}
