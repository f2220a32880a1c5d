/** Code lengths read off a Huffman tree from the root down, cut off at a longest length. */
module Depths {
  import opened Bits
  import opened SetSum
  import opened Huffman
  import opened Merging
  import opened TreeBuild
  import opened TreeDepth

  /** One for nodes of length `b`. */
  function Is(l: seq<nat>, b: nat): nat -> int
  {
    (x: nat) => if At(l, x) == b then 1 else 0
  }

  /** Length of the sons of a node of length `d`, at most `m`. */
  function Below(d: nat, m: nat): nat { if d + 1 > m then m else d + 1 }

  /** No length is more than the way from the root, and something is cut off only below a length of `m`. */
  ghost predicate Levels(g: Merges, l: seq<nat>, m: nat, k: nat, half: nat)
    requires g.Valid() && k <= |g.pairs|
  {
    (forall x :: x in g.forests[k] ==> At(l, x) + Height(g, x) <= TreeHeight(g)) && (half > 0 ==> TreeHeight(g) > m)
  }

  lemma LevelsStep(g: Merges, l: seq<nat>, l2: seq<nat>, m: nat, k: nat, half: nat)
    requires g.Valid() && 0 < k <= |g.pairs| && Lengthened(g, l, l2, m, k) && Levels(g, l, m, k, half)
    ensures Levels(g, l2, m, k - 1, if At(l, g.elems + k - 1) >= m then half + 1 else half)
  {
    SameRoots(g, l, l2, m, k);
    PairIds(g, k - 1);
    assert g.Step(k - 1);
    var p := g.pairs[k - 1];
    assert Height(g, g.elems + (k - 1)) == 1 + Max(Height(g, p.0), Height(g, p.1));
  }

  /** Lengths of the roots after `k` merges, when `half` pairs of brothers were cut off: the code space
      they take, how many have the longest length, and, if none was cut off, what they cost. */
  ghost predicate Assigned(g: Merges, f: seq<nat>, l: seq<nat>, m: nat, k: nat, half: nat)
    requires g.Valid() && k <= |g.pairs|
  {
    && (forall x :: x in g.forests[k] ==> At(l, x) <= m && x < |l|)
    && (forall x :: x in g.forests[k] && x != g.elems + |g.pairs| - 1 ==> At(l, x) >= 1)
    && Sum(g.forests[k], Weight(l, m)) == Pow2(m) + half
    && Sum(g.forests[k], Is(l, m)) >= half + (if half > 0 then 1 else 0)
    && (half == 0 ==> Cost(g.forests[k], f, l) + Merged(g, f, k) == Merged(g, f, |g.pairs|)) && Levels(g, l, m, k, half)
  }

  /** Nodes merged before step `k` still hold their fathers. */
  ghost predicate FathersBelow(g: Merges, l: seq<nat>, k: nat)
    requires k <= |g.pairs|
  {
    forall j :: 0 <= j < k ==> At(l, g.pairs[j].0) == g.elems + j && At(l, g.pairs[j].1) == g.elems + j
  }

  /** At the root. */
  lemma AssignedStart(g: Merges, f: seq<nat>, l: seq<nat>, m: nat)
    requires g.Valid() && |g.pairs| >= 1 && m >= 1 && g.Roots() == {g.elems + |g.pairs| - 1}
    requires g.elems + |g.pairs| - 1 < |l| && l[g.elems + |g.pairs| - 1] == 0
    ensures Assigned(g, f, l, m, |g.pairs|, 0)
  {
    var r: nat := g.elems + |g.pairs| - 1;
    One(r, Weight(l, m));
    One(r, Is(l, m));
    One(r, Price(f, l));
  }

  lemma One(x: nat, w: nat -> int)
    ensures Sum({x}, w) == w(x)
  {
    SumRemove({x}, w, x);
    assert {x} - {x} == {};
  }

  /** Expanding one root into its sons changes a sum by what the sons add. */
  lemma Expand(g: Merges, k: nat, w: nat -> int, w2: nat -> int)
    requires g.Valid() && 0 < k <= |g.pairs| && forall x :: x in g.forests[k] ==> w(x) == w2(x)
    ensures var p := g.pairs[k - 1];
      Sum(g.forests[k - 1], w2) == Sum(g.forests[k], w) + w2(p.0) + w2(p.1) - w2(g.elems + k - 1)
  {
    var p := g.pairs[k - 1];
    assert g.Step(k - 1) && IdsBelow(g.forests[k - 1], g.elems + (k - 1));
    SumMerge(g.forests[k - 1], w2, p.0, p.1, g.elems + k - 1);
    SumAgree(g.forests[k], w, w2);
  }

  /** The sons of one node get their length. */
  ghost predicate Lengthened(g: Merges, l: seq<nat>, l2: seq<nat>, m: nat, k: nat)
    requires 0 < k <= |g.pairs|
  {
    var p, v := g.pairs[k - 1], Below(At(l, g.elems + k - 1), m);
    |l2| == |l| && forall x :: At(l2, x) == if x == p.0 || x == p.1 then v else At(l, x)
  }

  lemma AssignedStep(g: Merges, f: seq<nat>, l: seq<nat>, l2: seq<nat>, m: nat, k: nat, half: nat)
    requires g.Valid() && 0 < k <= |g.pairs| && FreqsAdd(g, f) && m >= 1 && g.elems + |g.pairs| <= |l|
    requires Assigned(g, f, l, m, k, half) && Lengthened(g, l, l2, m, k)
    ensures Assigned(g, f, l2, m, k - 1, if At(l, g.elems + k - 1) >= m then half + 1 else half)
  {
    hide Sum, Pow2, Merged, Weight, Is, Price, Times, Levels;
    LevelsStep(g, l, l2, m, k, half);
    var p, d := g.pairs[k - 1], g.elems + k - 1;
    SameRoots(g, l, l2, m, k);
    assert g.Step(k - 1) && IdsBelow(g.forests[k - 1], g.elems + (k - 1));
    SpaceStep(g, l, l2, m, k);
    LongestStep(g, l, l2, m, k);
    CostStep(g, f, l, l2, m, k);
    assert Merged(g, f, k) == Merged(g, f, k - 1) + At(f, d) by { MergedLast(g, f, k); }
  }

  lemma MergedLast(g: Merges, f: seq<nat>, k: nat)
    requires k > 0
    ensures Merged(g, f, k) == Merged(g, f, k - 1) + At(f, g.elems + k - 1)
  {
  }

  /** The roots keep their lengths when the sons of one get theirs. */
  lemma SameRoots(g: Merges, l: seq<nat>, l2: seq<nat>, m: nat, k: nat)
    requires g.Valid() && 0 < k <= |g.pairs| && Lengthened(g, l, l2, m, k)
    ensures g.elems + k - 1 in g.forests[k] && At(l2, g.elems + k - 1) == At(l, g.elems + k - 1)
    ensures forall x :: x in g.forests[k] ==> At(l2, x) == At(l, x)
  {
    NeverRootAgain(g, k - 1, k);
    assert g.Step(k - 1);
    PairIds(g, k - 1);
  }

  lemma SpaceStep(g: Merges, l: seq<nat>, l2: seq<nat>, m: nat, k: nat)
    requires g.Valid() && 0 < k <= |g.pairs| && Lengthened(g, l, l2, m, k) && At(l, g.elems + k - 1) <= m
    ensures Sum(g.forests[k - 1], Weight(l2, m)) ==
      Sum(g.forests[k], Weight(l, m)) + (if At(l, g.elems + k - 1) >= m then 1 else 0)
  {
    SameRoots(g, l, l2, m, k);
    Expand(g, k, Weight(l, m), Weight(l2, m));
    var v := At(l, g.elems + k - 1);
    if v < m { assert Pow2(m - v) == 2 * Pow2(m - (v + 1)); }
  }

  lemma LongestStep(g: Merges, l: seq<nat>, l2: seq<nat>, m: nat, k: nat)
    requires g.Valid() && 0 < k <= |g.pairs| && Lengthened(g, l, l2, m, k) && At(l, g.elems + k - 1) <= m
    ensures Sum(g.forests[k - 1], Is(l2, m)) >= Sum(g.forests[k], Is(l, m))
      + (if At(l, g.elems + k - 1) >= m then 1 else 0)
    ensures At(l, g.elems + k - 1) >= m ==> Sum(g.forests[k - 1], Is(l2, m)) >= 2
  {
    SameRoots(g, l, l2, m, k);
    Expand(g, k, Is(l, m), Is(l2, m));
    SumNonNegative(g.forests[k], Is(l, m));
  }

  lemma CostStep(g: Merges, f: seq<nat>, l: seq<nat>, l2: seq<nat>, m: nat, k: nat)
    requires g.Valid() && 0 < k <= |g.pairs| && FreqsAdd(g, f) && Lengthened(g, l, l2, m, k)
    ensures At(l, g.elems + k - 1) < m ==>
      Cost(g.forests[k - 1], f, l2) == Cost(g.forests[k], f, l) + At(f, g.elems + k - 1)
  {
    hide Times;
    SameRoots(g, l, l2, m, k);
    Expand(g, k, Price(f, l), Price(f, l2));
    var p, v := g.pairs[k - 1], At(l, g.elems + k - 1);
    SonsPrice(At(f, p.0), At(f, p.1), v);
    assert At(f, g.elems + (k - 1)) == At(f, p.0) + At(f, p.1);
  }

  lemma SonsPrice(fa: nat, fb: nat, v: nat)
    ensures Times(fa, v + 1) + Times(fb, v + 1) == Times(fa + fb, v) + (fa + fb)
  {
    Distrib(fa, fb, v + 1);
    assert (fa + fb) * (v + 1) == (fa + fb) * v + (fa + fb);
  }

  /** One of the roots is on a longest way. */
  ghost predicate OnLongestWay(g: Merges, l: seq<nat>, k: nat, x: nat)
    requires g.Valid() && k <= |g.pairs|
  {
    x in g.forests[k] && At(l, x) + Height(g, x) == TreeHeight(g)
  }

  lemma WayStep(g: Merges, l: seq<nat>, l2: seq<nat>, m: nat, k: nat, x: nat) returns (y: nat)
    requires g.Valid() && 0 < k <= |g.pairs| && Lengthened(g, l, l2, m, k) && At(l, g.elems + k - 1) < m
      && OnLongestWay(g, l, k, x)
    ensures OnLongestWay(g, l2, k - 1, y)
  {
    SameRoots(g, l, l2, m, k);
    PairIds(g, k - 1);
    assert g.Step(k - 1);
    var p := g.pairs[k - 1];
    assert Height(g, g.elems + (k - 1)) == 1 + Max(Height(g, p.0), Height(g, p.1));
    y := if x != g.elems + k - 1 then x else if Height(g, p.0) >= Height(g, p.1) then p.0 else p.1;
  }

  /** The sons of the node made by merge `k` get their length; it was not too long for that. */
  lemma Lengthen(g: Merges, f: seq<nat>, l: seq<nat>, k: nat) returns (l2: seq<nat>)
    requires g.Valid() && 0 < k <= |g.pairs| && Assigned(g, f, l, |g.pairs| + 1, k, 0) && |l| == g.elems + |g.pairs|
    ensures |l2| == |l| && Lengthened(g, l, l2, |g.pairs| + 1, k) && At(l, g.elems + k - 1) <= |g.pairs|
  {
    hide Sum, Pow2, Merged, Height, Weight, Is, Cost;
    var p, d := g.pairs[k - 1], g.elems + k - 1;
    PairIds(g, k - 1);
    assert g.Step(k - 1);
    assert d in g.forests[k];
    assert At(l, d) + Height(g, d) <= TreeHeight(g);
    l2 := l[p.0 := At(l, d) + 1][p.1 := At(l, d) + 1];
  }

  /** The lengths with nothing cut off. */
  lemma {:induction false} TrueLengths(g: Merges, f: seq<nat>, k: nat) returns (l: seq<nat>, x: nat)
    requires g.Valid() && FreqsAdd(g, f) && |g.pairs| >= 1 && g.Roots() == {g.elems + |g.pairs| - 1} && k <= |g.pairs|
    ensures Assigned(g, f, l, |g.pairs| + 1, k, 0) && |l| == g.elems + |g.pairs| && OnLongestWay(g, l, k, x)
    decreases |g.pairs| - k
  {
    hide Assigned, Lengthened, FreqsAdd, Merges.Step;
    var m := |g.pairs| + 1;
    if k == |g.pairs| {
      l, x := seq(g.elems + |g.pairs|, _ => 0), g.elems + |g.pairs| - 1;
      AssignedStart(g, f, l, m);
    } else {
      var l1, y := TrueLengths(g, f, k + 1);
      l := Lengthen(g, f, l1, k + 1);
      AssignedStep(g, f, l1, l, m, k + 1, 0);
      x := WayStep(g, l1, l, m, k + 1, y);
    }
  }
}
