/** The record of how a Huffman tree was built: which two nodes each internal node was made from. */
module Merging {
  import opened Huffman

  /** Internal node `elems + k` was made from the pair `pairs[k]`, of which the first was removed first;
      `forests[k]` is the set of roots after `k` merges. */
  datatype Merges = Merges(elems: nat, pairs: seq<(nat, nat)>, forests: seq<set<nat>>)
  {
    ghost predicate Valid()
    {
      && |forests| == |pairs| + 1
      && (forall k :: 0 <= k < |forests| ==> IdsBelow(forests[k], elems + k))
      && (forall k {:trigger Step(k)} :: 0 <= k < |pairs| ==> Step(k))
    }

    /** Merge `k` took two roots and put in their father. */
    ghost predicate Step(k: nat)
      requires k < |pairs| && |forests| == |pairs| + 1
    {
      && pairs[k].0 in forests[k] && pairs[k].1 in forests[k] && pairs[k].0 != pairs[k].1
      && forests[k + 1] == forests[k] - {pairs[k].0} - {pairs[k].1} + {elems + k}
    }

    ghost function Leaves(): set<nat> requires |forests| > 0 { forests[0] }

    ghost function Roots(): set<nat> requires |forests| > 0 { forests[|forests| - 1] }

    ghost function Add(a: nat, b: nat): Merges
      requires |forests| > 0
    {
      Merges(elems, pairs + [(a, b)], forests + [Roots() - {a} - {b} + {elems + |pairs|}])
    }
  }

  ghost predicate IdsBelow(s: set<nat>, n: nat) { forall x :: x in s ==> x < n }

  lemma AddValid(g: Merges, a: nat, b: nat)
    requires g.Valid() && a in g.Roots() && b in g.Roots() && a != b
    ensures g.Add(a, b).Valid()
  {
    var h := g.Add(a, b);
    forall k | 0 <= k < |h.pairs| ensures h.Step(k) {
      if k < |g.pairs| { assert g.Step(k); }
    }
  }

  lemma {:induction false} ForestSize(g: Merges, k: nat)
    requires g.Valid() && k <= |g.pairs|
    ensures |g.forests[k]| + k == |g.Leaves()|
  {
    if k > 0 {
      ForestSize(g, k - 1);
      assert g.Step(k - 1);
      var s, p := g.forests[k - 1], g.pairs[k - 1];
      assert |s - {p.0}| == |s| - 1;
      assert |s - {p.0} - {p.1}| == |s| - 2;
      assert g.elems + k - 1 !in s by { assert IdsBelow(s, g.elems + (k - 1)); }
    }
  }

  /** Frequencies of the internal nodes are the sums of their sons'. */
  ghost predicate FreqsAdd(g: Merges, f: seq<nat>)
  {
    forall k :: 0 <= k < |g.pairs| ==>
      At(f, g.elems + k) == At(f, g.pairs[k].0) + At(f, g.pairs[k].1)
  }

  /** Nodes were removed in order of frequency. */
  ghost predicate RemovedInOrder(g: Merges, f: seq<nat>)
  {
    && |g.forests| > 0
    && (forall k :: 0 <= k < |g.pairs| ==> At(f, g.pairs[k].0) <= At(f, g.pairs[k].1))
    && (forall k :: 0 < k < |g.pairs| ==> At(f, g.pairs[k - 1].1) <= At(f, g.pairs[k].0))
    && (|g.pairs| > 0 ==> AllAtLeast(g.Roots(), f, At(f, g.pairs[|g.pairs| - 1].1)))
  }

  ghost predicate AllAtLeast(s: set<nat>, f: seq<nat>, v: nat) { forall x :: x in s ==> v <= At(f, x) }

  /** Total frequency of the first `k` internal nodes. */
  function Merged(g: Merges, f: seq<nat>, k: nat): nat
  {
    if k == 0 then 0 else Merged(g, f, k - 1) + At(f, g.elems + k - 1)
  }

  /** Two frequency tables that agree on all nodes made so far. */
  ghost predicate SameBelow(f: seq<nat>, f2: seq<nat>, n: nat)
  {
    forall x: nat :: x < n ==> At(f, x) == At(f2, x)
  }

  lemma {:induction false} MergedAgree(g: Merges, h: Merges, f: seq<nat>, f2: seq<nat>, k: nat)
    requires g.elems == h.elems && SameBelow(f, f2, g.elems + k)
    ensures Merged(g, f, k) == Merged(h, f2, k)
  {
    if k > 0 { MergedAgree(g, h, f, f2, k - 1); }
  }

  /** All that is known of the merges done so far: what they were, in which order, and that no prefix code
      for the leaves costs less than what was merged plus the best code for the roots. */
  ghost predicate Progress(g: Merges, f0: seq<nat>, f: seq<nat>)
  {
    && g.Valid() && FreqsAdd(g, f) && RemovedInOrder(g, f)
    && LowerBound(g.Leaves(), f0, g.Roots(), f, Merged(g, f, |g.pairs|))
  }

  lemma ProgressStart(elems: nat, leaves: set<nat>, f: seq<nat>)
    requires IdsBelow(leaves, elems)
    ensures Progress(Merges(elems, [], [leaves]), f, f)
  {
    LowerBoundStart(leaves, f);
  }

  /** `a` and `b` are the two least frequent nodes of `s`. */
  ghost predicate TwoLeast(s: set<nat>, f: seq<nat>, a: nat, b: nat)
  {
    && a in s && b in s && a != b
    && (forall x :: x in s ==> At(f, a) <= At(f, x))
    && (forall x :: x in s && x != a ==> At(f, b) <= At(f, x))
  }

  /** Merging the two least frequent roots. */
  lemma ProgressStep(g: Merges, f0: seq<nat>, f: seq<nat>, f2: seq<nat>, a: nat, b: nat)
    requires Progress(g, f0, f) && TwoLeast(g.Roots(), f, a, b)
    requires SameBelow(f, f2, g.elems + |g.pairs|)
    requires At(f2, g.elems + |g.pairs|) == At(f, a) + At(f, b)
    ensures Progress(g.Add(a, b), f0, f2)
  {
    hide LowerBound, Merged;
    var h, n := g.Add(a, b), |g.pairs|;
    AddValid(g, a, b);
    assert IdsBelow(g.Roots(), g.elems + n);
    LowerBoundStep(g.Leaves(), f0, g.Roots(), f, f2, Merged(g, f, n), a, b, g.elems + n);
    MergedStep(g, h, f, f2);
    FreqsStep(g, f, f2, a, b);
    OrderStep(g, f, f2, a, b);
  }

  lemma MergedStep(g: Merges, h: Merges, f: seq<nat>, f2: seq<nat>)
    requires g.elems == h.elems && |h.pairs| == |g.pairs| + 1 && SameBelow(f, f2, g.elems + |g.pairs|)
    ensures Merged(h, f2, |h.pairs|) == Merged(g, f, |g.pairs|) + At(f2, g.elems + |g.pairs|)
  {
    MergedAgree(g, h, f, f2, |g.pairs|);
  }

  lemma PairIds(g: Merges, k: nat)
    requires g.Valid() && k < |g.pairs|
    ensures g.pairs[k].0 < g.elems + k && g.pairs[k].1 < g.elems + k
  {
    assert g.Step(k) && IdsBelow(g.forests[k], g.elems + k);
  }

  lemma FreqsStep(g: Merges, f: seq<nat>, f2: seq<nat>, a: nat, b: nat)
    requires g.Valid() && FreqsAdd(g, f) && a in g.Roots() && b in g.Roots()
    requires SameBelow(f, f2, g.elems + |g.pairs|)
    requires At(f2, g.elems + |g.pairs|) == At(f, a) + At(f, b)
    ensures FreqsAdd(g.Add(a, b), f2)
  {
    var h, n := g.Add(a, b), |g.pairs|;
    assert IdsBelow(g.Roots(), g.elems + n);
    forall k | 0 <= k < |h.pairs|
      ensures At(f2, h.elems + k) == At(f2, h.pairs[k].0) + At(f2, h.pairs[k].1)
    {
      if k < n { PairIds(g, k); }
    }
  }

  lemma OrderStep(g: Merges, f: seq<nat>, f2: seq<nat>, a: nat, b: nat)
    requires g.Valid() && RemovedInOrder(g, f) && TwoLeast(g.Roots(), f, a, b)
    requires SameBelow(f, f2, g.elems + |g.pairs|)
    requires At(f2, g.elems + |g.pairs|) == At(f, a) + At(f, b)
    ensures RemovedInOrder(g.Add(a, b), f2)
  {
    var h, n := g.Add(a, b), |g.pairs|;
    assert IdsBelow(g.Roots(), g.elems + n);
    forall k | 0 <= k < n
      ensures At(f2, h.pairs[k].0) == At(f, g.pairs[k].0) && At(f2, h.pairs[k].1) == At(f, g.pairs[k].1)
    {
      PairIds(g, k);
    }
    assert h.pairs[n] == (a, b) && At(f2, a) == At(f, a) && At(f2, b) == At(f, b);
  }
}
