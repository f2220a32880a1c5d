/** Frequencies that are powers of two have only one cheapest code: the one whose lengths are their logarithms. */
module Dyadic {
  import opened Bits
  import opened SetSum
  import opened Huffman
  import opened BuildTree

  /** A power of two lies above the line through two of them that follow each other. */
  lemma PowAboveLine(a: nat, b: nat, e: int)
    requires e == 1 + b - a
    ensures Pow2(b) >= Pow2(a) * e && (Pow2(b) == Pow2(a) * e ==> b == a || b == a + 1)
  {
    hide Pow2;
    if b >= a {
      Pow2Add(a, b - a);
      PowAbove(b - a);
      TimesAbove(Pow2(a), Pow2(b - a), e);
    } else {
      NotPositive(Pow2(a), e);
    }
  }

  lemma NotPositive(p: nat, e: int)
    requires e <= 0
    ensures p * e <= 0
  {
  }

  lemma TimesAbove(p: nat, q: nat, e: int)
    requires p >= 1 && q >= e && (e >= 3 ==> q > e)
    ensures p * q >= p * e && (p * q == p * e ==> e < 3)
  {
    MulMono(e, q, p);
    if e >= 3 { MulStep(e, q, p); }
  }

  lemma {:induction false} PowAbove(d: nat)
    ensures Pow2(d) >= 1 + d && (d >= 2 ==> Pow2(d) > 1 + d)
  {
    if d > 0 { PowAbove(d - 1); }
  }

  lemma {:induction false} SumOfTwo(s: set<nat>, u: nat -> int, v: nat -> int, w: nat -> int)
    requires forall x :: x in s ==> w(x) == u(x) + v(x)
    ensures Sum(s, w) == Sum(s, u) + Sum(s, v)
    decreases |s|
  {
    if s != {} {
      var x :| x in s;
      SumRemove(s, u, x);
      SumRemove(s, v, x);
      SumRemove(s, w, x);
      SumOfTwo(s - {x}, u, v, w);
    }
  }

  /** What length `l[x]` saves against `best[x]`. */
  function Saved(f: seq<nat>, best: seq<nat>, l: seq<nat>): nat -> int
  {
    (x: nat) => At(f, x) * (At(best, x) - At(l, x))
  }

  /** How far the code space of `l[x]` lies above the line at `best[x]`. */
  function Above(best: seq<nat>, l: seq<nat>, k: nat): nat -> int
  {
    (x: nat) => Weight(l, k)(x) - Weight(best, k)(x) * (1 + At(best, x) - At(l, x))
  }

  /** The frequencies are the code spaces of the lengths `best`, which fill up all of it. */
  ghost predicate Matching(s: set<nat>, f: seq<nat>, best: seq<nat>, m: nat)
  {
    && (forall x :: x in s ==> At(best, x) <= m && x < |best| && At(f, x) == Pow2(m - At(best, x)))
    && Sum(s, Weight(best, m)) == Pow2(m)
  }

  lemma SavedSum(s: set<nat>, f: seq<nat>, best: seq<nat>, l: seq<nat>)
    ensures Sum(s, Saved(f, best, l)) == Cost(s, f, best) - Cost(s, f, l)
  {
    forall x | x in s ensures Price(f, best)(x) == Saved(f, best, l)(x) + Price(f, l)(x) {
      Distrib(At(best, x) - At(l, x), At(l, x), At(f, x));
    }
    SumOfTwo(s, Saved(f, best, l), Price(f, l), Price(f, best));
  }

  lemma AboveLine(s: set<nat>, best: seq<nat>, l: seq<nat>, k: nat, x: nat)
    requires At(best, x) <= k && At(l, x) <= k
    ensures Above(best, l, k)(x) >= 0
    ensures Above(best, l, k)(x) == 0 ==> At(l, x) == At(best, x) || At(l, x) == At(best, x) - 1
  {
    hide Pow2, At;
    var e := 1 + At(best, x) - At(l, x);
    PowAboveLine(k - At(best, x), k - At(l, x), e);
    var u, v := Weight(best, k)(x), Weight(l, k)(x);
    assert u == Pow2(k - At(best, x)) && v == Pow2(k - At(l, x));
    assert Above(best, l, k)(x) == v - u * e;
  }

  /** The code space of `best` at a finer scale. */
  lemma Scaled(s: set<nat>, f: seq<nat>, best: seq<nat>, m: nat, k: nat, x: nat)
    requires Matching(s, f, best, m) && x in s
    ensures Weight(best, m + k)(x) == At(f, x) * Pow2(k)
  {
    Pow2Add(m - At(best, x), k);
    assert m - At(best, x) + k == m + k - At(best, x);
  }

  lemma {:induction false} ScaledSum(s: set<nat>, l: seq<nat>, m: nat, k: nat)
    requires Feasible(s, l, k)
    ensures Sum(s, Weight(l, m + k)) <= Pow2(m + k)
  {
    hide Pow2, Sum;
    forall x | x in s ensures Weight(l, m + k)(x) == Weight(l, k)(x) * Pow2(m) {
      Pow2Add(k - At(l, x), m);
      assert k - At(l, x) + m == m + k - At(l, x);
    }
    SumScale(s, Weight(l, k), Weight(l, m + k), Pow2(m));
    MulMono(Sum(s, Weight(l, k)), Pow2(k), Pow2(m));
    Pow2Add(k, m);
  }

  lemma AboveAt(s: set<nat>, f: seq<nat>, best: seq<nat>, m: nat, l: seq<nat>, k: nat, x: nat)
    requires Matching(s, f, best, m) && x in s
    ensures Weight(l, m + k)(x) == Above(best, l, m + k)(x) + (Weight(best, m + k)(x) + Saved(f, best, l)(x) * Pow2(k))
  {
    hide Sum, Pow2, Weight, At;
    Scaled(s, f, best, m, k, x);
    AboveParts(At(f, x), Pow2(k), At(best, x) - At(l, x));
  }

  /** The spaces above the line add up to what they cost more. */
  lemma AboveSum(s: set<nat>, f: seq<nat>, best: seq<nat>, m: nat, l: seq<nat>, k: nat)
    requires Matching(s, f, best, m) && Feasible(s, l, k)
    ensures Sum(s, Above(best, l, m + k)) + (Cost(s, f, best) - Cost(s, f, l)) * Pow2(k) <= 0
  {
    hide Sum, Pow2, Cost, Feasible, Weight, Above, Saved;
    var q := m + k;
    var saved: nat -> int := (x: nat) => Saved(f, best, l)(x) * Pow2(k);
    var both: nat -> int := (x: nat) => Weight(best, q)(x) + saved(x);
    forall x | x in s ensures Weight(l, q)(x) == Above(best, l, q)(x) + both(x) {
      AboveAt(s, f, best, m, l, k, x);
    }
    SumOfTwo(s, Above(best, l, q), both, Weight(l, q));
    SumOfTwo(s, Weight(best, q), saved, both);
    SumScale(s, Saved(f, best, l), saved, Pow2(k));
    SavedSum(s, f, best, l);
    FullAtAnyScale(s, best, m, q);
    ScaledSum(s, l, m, k);
  }

  lemma AboveParts(f: int, u: int, d: int)
    ensures (f * u) * (1 + d) == f * u + (f * d) * u
  {
  }

  /** A code that costs no more than these lengths has them. */
  lemma OnlyCheapest(s: set<nat>, f: seq<nat>, best: seq<nat>, m: nat, l: seq<nat>, k: nat)
    requires Matching(s, f, best, m) && Feasible(s, l, k) && Cost(s, f, l) <= Cost(s, f, best)
    ensures forall x :: x in s ==> At(l, x) == At(best, x)
  {
    hide Sum, Pow2, Cost;
    var above, saved := Above(best, l, m + k), Saved(f, best, l);
    AboveSum(s, f, best, m, l, k);
    MulMono(0, Cost(s, f, best) - Cost(s, f, l), Pow2(k));
    forall x | x in s ensures above(x) >= 0 { AboveLine(s, best, l, m + k, x); }
    SumNonNegative(s, above);
    forall x | x in s ensures At(l, x) == At(best, x) || At(l, x) == At(best, x) - 1 {
      AboveLine(s, best, l, m + k, x);
    }
    NothingSaved(s, f, best, m, l, k);
  }

  lemma SavedAt(f: seq<nat>, best: seq<nat>, l: seq<nat>, x: nat)
    requires At(f, x) >= 1 && (At(l, x) == At(best, x) || At(l, x) == At(best, x) - 1)
    ensures Saved(f, best, l)(x) >= 0 && (Saved(f, best, l)(x) == 0 ==> At(l, x) == At(best, x))
  {
    hide At;
    if At(l, x) == At(best, x) { assert Saved(f, best, l)(x) == At(f, x) * 0; }
      else { assert Saved(f, best, l)(x) == At(f, x) * 1; }
  }

  lemma NotLess(a: int, c: int, u: int)
    requires a >= 0 && a + c * u <= 0 && u >= 1
    ensures c <= 0
  {
    if c > 0 { MulMono(1, c, u); }
  }

  lemma NothingSaved(s: set<nat>, f: seq<nat>, best: seq<nat>, m: nat, l: seq<nat>, k: nat)
    requires Matching(s, f, best, m) && Sum(s, Above(best, l, m + k)) >= 0
    requires Sum(s, Above(best, l, m + k)) + (Cost(s, f, best) - Cost(s, f, l)) * Pow2(k) <= 0
    requires forall x :: x in s ==> At(l, x) == At(best, x) || At(l, x) == At(best, x) - 1
    ensures forall x :: x in s ==> At(l, x) == At(best, x)
  {
    hide Sum, Cost, Pow2, Saved, Above, Weight, At;
    var saved := Saved(f, best, l);
    SavedSum(s, f, best, l);
    NotLess(Sum(s, Above(best, l, m + k)), Cost(s, f, best) - Cost(s, f, l), Pow2(k));
    forall x | x in s ensures saved(x) >= 0 && (saved(x) == 0 ==> At(l, x) == At(best, x)) { SavedAt(f, best, l, x); }
    SumNonNegative(s, saved);
  }

  /** Frequencies with one less at `z`. */
  ghost predicate OneLess(s: set<nat>, f: seq<nat>, f2: seq<nat>, z: nat)
  {
    z in s && forall x :: x in s ==> At(f, x) == At(f2, x) - if x == z then 1 else 0
  }

  lemma LessCost(s: set<nat>, f: seq<nat>, f2: seq<nat>, l: seq<nat>, z: nat)
    requires OneLess(s, f, f2, z)
    ensures Cost(s, f2, l) == Cost(s, f, l) + At(l, z)
  {
    hide Sum, At, Times;
    SumRemove(s, Price(f, l), z);
    SumRemove(s, Price(f2, l), z);
    SumAgree(s - {z}, Price(f, l), Price(f2, l));
    OneTimesMore(At(f, z), At(l, z));
  }

  lemma OneTimesMore(a: nat, b: nat)
    ensures Times(a + 1, b) == Times(a, b) + b
  {
    Distrib(a, 1, b);
  }

  /** A longer code for a frequency of four or more takes more space than one occurrence less pays for. */
  lemma LongerTooDear(s: set<nat>, f2: seq<nat>, best: seq<nat>, m: nat, l: seq<nat>, k: nat, z: nat)
    requires Matching(s, f2, best, m) && z in s && At(f2, z) >= 4 && At(best, z) < At(l, z) <= k
    ensures Above(best, l, m + k)(z) > (At(l, z) - At(best, z)) * Pow2(k)
  {
    hide Sum, At, Pow2;
    var d, w := At(l, z) - At(best, z), Pow2(m + k - At(l, z));
    Scaled(s, f2, best, m, k, z);
    assert Above(best, l, m + k)(z) == w - (At(f2, z) * Pow2(k)) * (1 - d);
    if d == 1 { NextPower(m + k - At(l, z)); }
    Dear(w, At(f2, z), Pow2(k), d);
  }

  lemma NextPower(n: nat)
    ensures Pow2(n + 1) == 2 * Pow2(n)
  {
  }

  lemma Dear(w: nat, f: nat, p: nat, d: nat)
    requires f >= 4 && p >= 1 && d >= 1 && (d == 1 ==> 2 * w == f * p)
    ensures w - (f * p) * (1 - d) > d * p
  {
    MulMono(4, f, p);
    var q, e := f * p, d - 1;
    Unfold(q, p, e);
    if e > 0 {
      MulMono(4 * p, q, e);
      MulMono(1, e, p);
    }
  }

  lemma Unfold(q: int, p: int, e: int)
    ensures q * (1 - (e + 1)) == -(q * e) && (e + 1) * p == e * p + p && (4 * p) * e == 4 * (e * p)
  {
  }

  /** Frequencies that are powers of two but for one occurrence less of a symbol with four or more have only one
      cheapest code, too. */
  lemma AlmostOnly(s: set<nat>, f: seq<nat>, f2: seq<nat>, best: seq<nat>, m: nat, l: seq<nat>, k: nat, z: nat)
    requires Matching(s, f2, best, m) && OneLess(s, f, f2, z) && At(f2, z) >= 4 && Feasible(s, l, k)
      && Cost(s, f, l) <= Cost(s, f, best)
    ensures forall x :: x in s ==> At(l, x) == At(best, x)
  {
    hide Sum, Pow2, Cost, Weight;
    LessCost(s, f, f2, l, z);
    LessCost(s, f, f2, best, z);
    if At(l, z) > At(best, z) {
      AboveSum(s, f2, best, m, l, k);
      forall x | x in s ensures Above(best, l, m + k)(x) >= 0 { AboveLine(s, best, l, m + k, x); }
      SumAtLeast(s, Above(best, l, m + k), z);
      LongerTooDear(s, f2, best, m, l, k, z);
      MulMono(Cost(s, f2, l) - Cost(s, f2, best), At(l, z) - At(best, z), Pow2(k));
      assert false;
    }
    OnlyCheapest(s, f2, best, m, l, k);
  }

  lemma SumAtLeast(s: set<nat>, g: nat -> int, z: nat)
    requires z in s && forall x :: x in s ==> g(x) >= 0
    ensures Sum(s, g) >= g(z)
  {
    SumRemove(s, g, z);
    SumNonNegative(s - {z}, g);
  }
}
