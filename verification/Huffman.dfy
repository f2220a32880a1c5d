/** Why merging the two least frequent nodes at every step gives the least total of frequency times code
    length, over all code lengths a prefix code can have. */
module Huffman {
  import opened Bits
  import opened SetSum

  function At(s: seq<nat>, x: nat): nat { if x < |s| then s[x] else 0 }

  /** Code space of length `l[x]`, in units of 2^-k. */
  function Weight(l: seq<nat>, k: nat): nat -> int
  {
    (x: nat) => if At(l, x) <= k then Pow2(k - At(l, x)) else 0
  }

  function Times(a: nat, b: nat): nat { a * b }

  /** Bits that node `x` costs. */
  function Price(f: seq<nat>, l: seq<nat>): nat -> int
  {
    (x: nat) => Times(At(f, x), At(l, x))
  }

  /** Lengths of at most `k` that a prefix code for the nodes in `s` can have. */
  ghost predicate Feasible(s: set<nat>, l: seq<nat>, k: nat)
  {
    && (forall x :: x in s ==> At(l, x) <= k && x < |l|)
    && Sum(s, Weight(l, k)) <= Pow2(k)
  }

  ghost function Cost(s: set<nat>, f: seq<nat>, l: seq<nat>): int { Sum(s, Price(f, l)) }

  lemma SumTwo(s: set<nat>, g: nat -> int, i: nat, p: nat)
    requires i in s && p in s && i != p
    ensures Sum(s, g) == g(i) + g(p) + Sum(s - {i} - {p}, g)
  {
    SumRemove(s, g, i);
    SumRemove(s - {i}, g, p);
  }

  /** Giving the longer of two lengths to the less frequent node costs no more. */
  lemma SwapLengths(s: set<nat>, f: seq<nat>, l: seq<nat>, k: nat, i: nat, p: nat) returns (l2: seq<nat>)
    requires Feasible(s, l, k) && i in s && p in s && At(f, i) <= At(f, p) && At(l, i) <= At(l, p)
    ensures |l2| == |l| && Feasible(s, l2, k) && Cost(s, f, l2) <= Cost(s, f, l)
    ensures forall x :: At(l2, x) == if x == i then At(l, p) else if x == p then At(l, i) else At(l, x)
  {
    l2 := l[i := l[p]][p := l[i]];
    if i == p {
      assert l2 == l;
    } else {
      SwapKraft(s, l, l2, k, i, p);
      SwapCost(s, f, l, l2, i, p);
    }
  }

  lemma SwapKraft(s: set<nat>, l: seq<nat>, l2: seq<nat>, k: nat, i: nat, p: nat)
    requires i in s && p in s && i != p
    requires forall x :: At(l2, x) == if x == i then At(l, p) else if x == p then At(l, i) else At(l, x)
    ensures Sum(s, Weight(l2, k)) == Sum(s, Weight(l, k))
  {
    hide Pow2;
    SumTwo(s, Weight(l, k), i, p);
    SumTwo(s, Weight(l2, k), i, p);
    SumAgree(s - {i} - {p}, Weight(l, k), Weight(l2, k));
  }

  lemma SwapCost(s: set<nat>, f: seq<nat>, l: seq<nat>, l2: seq<nat>, i: nat, p: nat)
    requires i in s && p in s && i != p && At(f, i) <= At(f, p) && At(l, i) <= At(l, p)
    requires forall x :: At(l2, x) == if x == i then At(l, p) else if x == p then At(l, i) else At(l, x)
    ensures Cost(s, f, l2) <= Cost(s, f, l)
  {
    hide Times;
    SumTwo(s, Price(f, l), i, p);
    SumTwo(s, Price(f, l2), i, p);
    SumAgree(s - {i} - {p}, Price(f, l), Price(f, l2));
    Rearrange(At(f, i), At(f, p), At(l, i), At(l, p));
  }

  lemma Rearrange(a: nat, b: nat, x: nat, y: nat)
    requires a <= b && x <= y
    ensures Times(a, y) + Times(b, x) <= Times(a, x) + Times(b, y)
  {
    MulMono(x, y, b - a);
    Distrib(b - a, a, x);
    Distrib(b - a, a, y);
  }

  lemma {:induction false} LongestIn(s: set<nat>, l: seq<nat>) returns (p: nat)
    requires s != {}
    ensures p in s && forall x :: x in s ==> At(l, x) <= At(l, p)
    decreases |s|
  {
    var y :| y in s;
    if s == {y} {
      p := y;
    } else {
      assert s - {y} != {};
      p := LongestIn(s - {y}, l);
      if At(l, p) < At(l, y) { p := y; }
    }
  }

  /** The two least frequent nodes can have the two longest codes at no extra cost. */
  lemma LeastGetLongest(s: set<nat>, f: seq<nat>, l: seq<nat>, k: nat, a: nat, b: nat) returns (l2: seq<nat>)
    requires Feasible(s, l, k) && a in s && b in s && a != b
    requires forall x :: x in s ==> At(f, a) <= At(f, x)
    requires forall x :: x in s && x != a ==> At(f, b) <= At(f, x)
    ensures |l2| == |l| && Feasible(s, l2, k) && Cost(s, f, l2) <= Cost(s, f, l)
    ensures At(l2, b) <= At(l2, a)
    ensures forall x :: x in s && x != a ==> At(l2, x) <= At(l2, b)
  {
    hide Feasible, Cost;
    var p := LongestIn(s, l);
    var l1 := SwapLengths(s, f, l, k, a, p);
    assert b in s - {a};
    var q := LongestIn(s - {a}, l1);
    l2 := SwapLengths(s, f, l1, k, b, q);
    forall x | x in s && x != a ensures At(l2, x) <= At(l2, b) {
      assert x in s - {a};
    }
  }

  /** All codes but the longest fill multiples of the second longest. */
  lemma ShorterAreMultiples(s: set<nat>, l: seq<nat>, k: nat, a: nat, b: nat) returns (m: int)
    requires Feasible(s, l, k) && a in s && b in s && a != b
    requires forall x :: x in s && x != a ==> At(l, x) <= At(l, b)
    ensures Sum(s - {a}, Weight(l, k)) == m * Pow2(k - At(l, b))
  {
    hide Sum, Pow2;
    var g, u := Weight(l, k), Pow2(k - At(l, b));
    forall x | x in s - {a} ensures exists q: int :: g(x) == q * u {
      Pow2Add(At(l, b) - At(l, x), k - At(l, b));
      assert At(l, b) - At(l, x) + (k - At(l, b)) == k - At(l, x);
      assert g(x) == Pow2(At(l, b) - At(l, x)) * u;
    }
    m := SumMultiple(s - {a}, g, u);
  }

  lemma RoomForOne(m: int, p: int, u: int)
    requires u >= 1 && m * u < p * u
    ensures m * u + u <= p * u
  {
    if m >= p { MulMono(p, m, u); } else { MulStep(m, p, u); }
  }

  /** So the father of the two longest has room one bit above the second longest. */
  lemma FatherFits(s: set<nat>, l: seq<nat>, k: nat, a: nat, b: nat)
    requires Feasible(s, l, k) && a in s && b in s && a != b
    requires forall x :: x in s && x != a ==> At(l, x) <= At(l, b)
    ensures At(l, b) >= 1
    ensures Sum(s - {a}, Weight(l, k)) + Pow2(k - At(l, b)) <= Pow2(k)
  {
    hide Sum, Pow2;
    var g, u := Weight(l, k), Pow2(k - At(l, b));
    var m := ShorterAreMultiples(s, l, k, a, b);
    SumRemove(s, g, a);
    Pow2Sub(k, k - At(l, b));
    assert k - (k - At(l, b)) == At(l, b);
    RoomForOne(m, Pow2(At(l, b)), u);
    SumRemove(s - {a}, g, b);
    SumNonNegative(s - {a} - {b}, g);
  }

  /** Merging the two least frequent nodes `a` and `b` into `c`: whatever lengths the nodes have, the merged
      nodes have lengths that cost less by at least the merged frequency. */
  lemma MergeStep(s: set<nat>, f: seq<nat>, f2: seq<nat>, l: seq<nat>, k: nat, a: nat, b: nat, c: nat)
    returns (l2: seq<nat>)
    requires Feasible(s, l, k) && a in s && b in s && a != b && c !in s
    requires forall x :: x in s ==> At(f, a) <= At(f, x)
    requires forall x :: x in s && x != a ==> At(f, b) <= At(f, x)
    requires At(f2, c) == At(f, a) + At(f, b) && forall x :: x in s ==> At(f2, x) == At(f, x)
    ensures var s2 := s - {a} - {b} + {c};
      Feasible(s2, l2, k) && Cost(s2, f2, l2) + At(f2, c) <= Cost(s, f, l)
  {
    hide Pow2, Feasible, Cost;
    var l1 := LeastGetLongest(s, f, l, k, a, b);
    FatherFits(s, l1, k, a, b);
    l2 := Extended(l1, c, At(l1, b) - 1);
    MergedKraft(s, l1, l2, k, a, b, c);
    MergedCost(s, f, f2, l1, l2, a, b, c);
  }

  lemma MergedCost(s: set<nat>, f: seq<nat>, f2: seq<nat>, l1: seq<nat>, l2: seq<nat>, a: nat, b: nat, c: nat)
    requires a in s && b in s && a != b && c !in s && 1 <= At(l1, b) <= At(l1, a)
    requires At(f2, c) == At(f, a) + At(f, b) && forall x :: x in s ==> At(f2, x) == At(f, x)
    requires forall x :: At(l2, x) == if x == c then At(l1, b) - 1 else At(l1, x)
    ensures Cost(s - {a} - {b} + {c}, f2, l2) + At(f2, c) <= Cost(s, f, l1)
  {
    hide Times;
    var r := s - {a} - {b};
    SumTwo(s, Price(f, l1), a, b);
    SumAdd(r, Price(f2, l2), c);
    SumAgree(r, Price(f, l1), Price(f2, l2));
    MergedPrice(At(f, a), At(f, b), At(l1, a), At(l1, b));
  }

  ghost function Extended(l: seq<nat>, c: nat, v: nat): (r: seq<nat>)
    ensures forall x :: At(r, x) == if x == c then v else At(l, x)
    ensures c < |r| && |l| <= |r|
  {
    var pad := if |l| <= c then l + seq(c + 1 - |l|, _ => 0) else l;
    pad[c := v]
  }

  lemma MergedKraft(s: set<nat>, l1: seq<nat>, l2: seq<nat>, k: nat, a: nat, b: nat, c: nat)
    requires Feasible(s, l1, k) && a in s && b in s && a != b && c !in s && At(l1, b) >= 1
    requires Sum(s - {a}, Weight(l1, k)) + Pow2(k - At(l1, b)) <= Pow2(k)
    requires |l1| <= |l2| && c < |l2| && forall x :: At(l2, x) == if x == c then At(l1, b) - 1 else At(l1, x)
    ensures Feasible(s - {a} - {b} + {c}, l2, k)
  {
    hide Sum, Pow2;
    var r := s - {a} - {b};
    SumRemove(s - {a}, Weight(l1, k), b);
    SumAgree(r, Weight(l1, k), Weight(l2, k));
    SumAdd(r, Weight(l2, k), c);
    OneBitUp(k, At(l1, b));
  }

  lemma OneBitUp(k: nat, b: nat)
    requires 1 <= b <= k
    ensures Pow2(k - (b - 1)) == 2 * Pow2(k - b)
  {
  }

  lemma MergedPrice(fa: nat, fb: nat, la: nat, lb: nat)
    requires 1 <= lb <= la
    ensures Times(fa + fb, lb - 1) + (fa + fb) <= Times(fa, la) + Times(fb, lb)
  {
    Distrib(fa, fb, lb);
    MulMono(lb, la, fa);
    assert (fa + fb) * (lb - 1) == (fa + fb) * lb - (fa + fb);
  }

  /** Every prefix code for the leaves `s0` costs at least `merged` more than some prefix code for `s`. */
  ghost predicate LowerBound(s0: set<nat>, f0: seq<nat>, s: set<nat>, f: seq<nat>, merged: int)
  {
    forall l, k {:trigger Feasible(s0, l, k)} :: Feasible(s0, l, k) ==>
      exists l2 :: Feasible(s, l2, k) && Cost(s, f, l2) + merged <= Cost(s0, f0, l)
  }

  lemma LowerBoundStart(s: set<nat>, f: seq<nat>)
    ensures LowerBound(s, f, s, f, 0)
  {
  }

  lemma LowerBoundStep(s0: set<nat>, f0: seq<nat>, s: set<nat>, f: seq<nat>, f2: seq<nat>, merged: int, a: nat, b: nat,
                       c: nat)
    requires LowerBound(s0, f0, s, f, merged) && a in s && b in s && a != b && c !in s
    requires forall x :: x in s ==> At(f, a) <= At(f, x)
    requires forall x :: x in s && x != a ==> At(f, b) <= At(f, x)
    requires At(f2, c) == At(f, a) + At(f, b) && forall x :: x in s ==> At(f2, x) == At(f, x)
    ensures LowerBound(s0, f0, s - {a} - {b} + {c}, f2, merged + At(f2, c))
  {
    hide Feasible, Cost;
    var s2 := s - {a} - {b} + {c};
    forall l, k {:trigger Feasible(s0, l, k)} | Feasible(s0, l, k)
      ensures exists l3 :: Feasible(s2, l3, k) && Cost(s2, f2, l3) + (merged + At(f2, c)) <= Cost(s0, f0, l)
    {
      var l2 :| Feasible(s, l2, k) && Cost(s, f, l2) + merged <= Cost(s0, f0, l);
      var l3 := MergeStep(s, f, f2, l2, k, a, b, c);
    }
  }

  /** Once one node is left, what was merged is a lower bound on the cost of every prefix code. */
  lemma LowerBoundEnd(s0: set<nat>, f0: seq<nat>, root: nat, f: seq<nat>, merged: int, l: seq<nat>, k: nat)
    requires LowerBound(s0, f0, {root}, f, merged) && Feasible(s0, l, k)
    ensures Cost(s0, f0, l) >= merged
  {
    var l2 :| Feasible({root}, l2, k) && Cost({root}, f, l2) + merged <= Cost(s0, f0, l);
    SumNonNegative({root}, Price(f, l2));
  }
}
