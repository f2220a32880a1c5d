/** How high a Huffman tree can get: one of height `h` weighs at least as much as the Fibonacci number of `h + 2`. */
module TreeDepth {
  import opened SetSum
  import opened Huffman
  import opened Merging
  import opened TreeBuild

  function Fib(n: nat): nat { if n < 2 then n else Fib(n - 1) + Fib(n - 2) }

  function Max(a: nat, b: nat): nat { if a < b then b else a }

  /** Longest way from node `x` down to a leaf. */
  ghost function Height(g: Merges, x: nat): nat
    requires g.Valid()
  {
    if x < g.elems || x >= g.elems + |g.pairs| then 0
    else
      PairIds(g, x - g.elems);
      var p := g.pairs[x - g.elems];
      1 + Max(Height(g, p.0), Height(g, p.1))
  }

  /** Height of the whole tree. */
  ghost function TreeHeight(g: Merges): (h: nat)
    requires g.Valid()
    ensures h <= |g.pairs|
  {
    if |g.pairs| == 0 then 0 else HeightBound(g, g.elems + |g.pairs| - 1); Height(g, g.elems + |g.pairs| - 1)
  }

  lemma {:induction false} HeightBound(g: Merges, x: nat)
    requires g.Valid()
    ensures Height(g, x) <= |g.pairs| && (g.elems <= x < g.elems + |g.pairs| ==> Height(g, x) <= x - g.elems + 1)
    decreases x
  {
    if g.elems <= x < g.elems + |g.pairs| {
      var p := g.pairs[x - g.elems];
      PairIds(g, x - g.elems);
      HeightBound(g, p.0);
      HeightBound(g, p.1);
    }
  }

  /** Every symbol in the tree occurs. */
  ghost predicate Occurring(g: Merges, f: seq<nat>)
    requires |g.forests| > 0
  {
    forall x :: x in g.Leaves() ==> At(f, x) >= 1
  }

  /** Nodes merged later weigh no less. */
  lemma {:induction false} LaterHeavier(g: Merges, f: seq<nat>, j: nat, k: nat)
    requires RemovedInOrder(g, f) && j < k < |g.pairs|
    ensures At(f, g.pairs[j].1) <= At(f, g.pairs[k].0)
    decreases k
  {
    if j + 1 < k { LaterHeavier(g, f, j, k - 1); }
  }

  /** The sons of a node are symbols or were made before it. */
  lemma Sons(g: Merges, k: nat)
    requires g.Valid() && k < |g.pairs|
    ensures var p := g.pairs[k]; p.0 < g.elems + k && p.1 < g.elems + k
    ensures var p := g.pairs[k]; (p.0 < g.elems ==> p.0 in g.Leaves()) && (p.1 < g.elems ==> p.1 in g.Leaves())
  {
    PairIds(g, k);
    LowAreLeaves(g, k);
    assert g.Step(k);
  }

  /** The son on a longest way down weighs no more than the other son of the father. */
  lemma Uncle(g: Merges, f: seq<nat>, c: nat, d: nat, o: nat, k: nat)
    requires g.Valid() && RemovedInOrder(g, f) && k < |g.pairs| && g.elems <= c < g.elems + k
    requires o == g.pairs[k].0 || o == g.pairs[k].1
    requires d == g.pairs[c - g.elems].0 || d == g.pairs[c - g.elems].1
    ensures At(f, d) <= At(f, o)
  {
    LaterHeavier(g, f, c - g.elems, k);
  }

  /** The son on a longest way down, and the other. */
  lemma HigherSon(g: Merges, f: seq<nat>, k: nat) returns (c: nat, o: nat)
    requires g.Valid() && FreqsAdd(g, f) && k < |g.pairs|
    ensures (c, o) == g.pairs[k] || (o, c) == g.pairs[k]
    ensures Height(g, g.elems + k) == 1 + Height(g, c) && At(f, g.elems + k) == At(f, c) + At(f, o)
    ensures c < g.elems + k && o < g.elems + k && (c < g.elems ==> c in g.Leaves()) && (o < g.elems ==> o in g.Leaves())
  {
    Sons(g, k);
    var p := g.pairs[k];
    c, o := if Height(g, p.0) >= Height(g, p.1) then p.0 else p.1, if Height(g, p.0) >= Height(g, p.1) then p.1
      else p.0;
  }

  lemma LeafHeight(g: Merges, x: nat)
    requires g.Valid() && x < g.elems
    ensures Height(g, x) == 0
  {
  }

  lemma FibStep(n: nat)
    ensures Fib(2) == 1 && Fib(3) == 2 && Fib(n + 2) == Fib(n + 1) + Fib(n)
  {
  }

  lemma {:induction false} Weighty(g: Merges, f: seq<nat>, x: nat)
    requires g.Valid() && FreqsAdd(g, f) && RemovedInOrder(g, f) && Occurring(g, f)
    requires x < g.elems + |g.pairs| && (x < g.elems ==> x in g.Leaves())
    ensures At(f, x) >= Fib(Height(g, x) + 2)
    decreases x
  {
    hide Fib, Height, Merges.Valid, FreqsAdd, RemovedInOrder;
    if x < g.elems {
      LeafHeight(g, x);
      FibStep(0);
    } else {
      var c, o := HigherSon(g, f, x - g.elems);
      Weighty(g, f, c);
      if c < g.elems {
        LeafHeight(g, c);
        FibStep(0);
        Weighty(g, f, o);
        Positive(g, o);
      } else {
        var d, e := HigherSon(g, f, c - g.elems);
        Weighty(g, f, d);
        Uncle(g, f, c, d, o, x - g.elems);
        FibStep(Height(g, c) + 1);
      }
    }
  }

  lemma {:induction false} Positive(g: Merges, x: nat)
    requires g.Valid()
    ensures Fib(Height(g, x) + 2) >= 1
  {
    FibMono(2, Height(g, x) + 2);
  }

  /** Merging keeps the total. */
  lemma {:induction false} SameTotal(g: Merges, f: seq<nat>, k: nat)
    requires g.Valid() && FreqsAdd(g, f) && k <= |g.pairs|
    ensures Sum(g.forests[k], FreqOf(f)) == Sum(g.Leaves(), FreqOf(f))
  {
    if k > 0 {
      SameTotal(g, f, k - 1);
      assert g.Step(k - 1) && IdsBelow(g.forests[k - 1], g.elems + (k - 1));
      SumMerge(g.forests[k - 1], FreqOf(f), g.pairs[k - 1].0, g.pairs[k - 1].1, g.elems + (k - 1));
    }
  }

  /** The whole tree, by the total of the frequencies. */
  lemma WholeWeight(g: Merges, f: seq<nat>)
    requires g.Valid() && FreqsAdd(g, f) && RemovedInOrder(g, f) && Occurring(g, f)
    requires |g.pairs| >= 1 && g.Roots() == {g.elems + |g.pairs| - 1}
    ensures Sum(g.Leaves(), FreqOf(f)) >= Fib(TreeHeight(g) + 2)
  {
    var r: nat := g.elems + |g.pairs| - 1;
    Weighty(g, f, r);
    SameTotal(g, f, |g.pairs|);
    SumRemove({r}, FreqOf(f), r);
    assert {r} - {r} == {};
  }

  lemma {:induction false} FibMono(a: nat, b: nat)
    requires a <= b
    ensures Fib(a) <= Fib(b)
    decreases b
  {
    if a < b { FibMono(a, b - 1); }
  }

  /** No tree that high weighs less. */
  lemma HeightEarned(g: Merges, f: seq<nat>, n: nat)
    requires g.Valid() && FreqsAdd(g, f) && RemovedInOrder(g, f) && Occurring(g, f)
    requires |g.pairs| >= 1 && g.Roots() == {g.elems + |g.pairs| - 1} && n <= TreeHeight(g)
    ensures Fib(n + 2) <= Sum(g.Leaves(), FreqOf(f))
  {
    WholeWeight(g, f);
    FibMono(n + 2, TreeHeight(g) + 2);
  }
}
