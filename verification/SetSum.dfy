/** Sums over finite sets. */
module SetSum {
  ghost function Sum(s: set<nat>, g: nat -> int): int
  {
    if s == {} then 0 else var x :| x in s; g(x) + Sum(s - {x}, g)
  }

  lemma {:induction false} SumRemove(s: set<nat>, g: nat -> int, x: nat)
    requires x in s
    ensures Sum(s, g) == g(x) + Sum(s - {x}, g)
    decreases |s|
  {
    var y :| y in s && Sum(s, g) == g(y) + Sum(s - {y}, g);
    if y != x {
      SumRemove(s - {y}, g, x);
      SumRemove(s - {x}, g, y);
      assert s - {y} - {x} == s - {x} - {y};
    }
  }

  lemma SumAdd(s: set<nat>, g: nat -> int, x: nat)
    requires x !in s
    ensures Sum(s + {x}, g) == g(x) + Sum(s, g)
  {
    SumRemove(s + {x}, g, x);
    assert s + {x} - {x} == s;
  }

  /** Taking `a` and `b` out and putting `c` in. */
  lemma SumMerge(s: set<nat>, g: nat -> int, a: nat, b: nat, c: nat)
    requires a in s && b in s && a != b && c !in s
    ensures Sum(s - {a} - {b} + {c}, g) == Sum(s, g) - g(a) - g(b) + g(c)
  {
    SumRemove(s, g, a);
    SumRemove(s - {a}, g, b);
    SumAdd(s - {a} - {b}, g, c);
  }

  lemma {:induction false} SumAgree(s: set<nat>, g: nat -> int, h: nat -> int)
    requires forall x :: x in s ==> g(x) == h(x)
    ensures Sum(s, g) == Sum(s, h)
    decreases |s|
  {
    if s != {} {
      var x :| x in s;
      SumRemove(s, g, x);
      SumRemove(s, h, x);
      SumAgree(s - {x}, g, h);
    }
  }

  lemma {:induction false} SumNonNegative(s: set<nat>, g: nat -> int)
    requires forall x :: x in s ==> g(x) >= 0
    ensures Sum(s, g) >= 0
    ensures forall x :: x in s ==> g(x) <= Sum(s, g)
    decreases |s|
  {
    forall x | x in s ensures g(x) <= Sum(s, g) {
      SumRemove(s, g, x);
      SumNonNegative(s - {x}, g);
    }
  }

  /** Two different elements weigh no more than the whole. */
  lemma SumPair(s: set<nat>, g: nat -> int, a: nat, b: nat)
    requires a in s && b in s && a != b && forall x :: x in s ==> g(x) >= 0
    ensures g(a) + g(b) <= Sum(s, g)
  {
    SumRemove(s, g, a);
    SumNonNegative(s - {a}, g);
  }

  /** A sum of multiples of `u` is one. */
  lemma {:induction false} SumMultiple(s: set<nat>, g: nat -> int, u: int) returns (k: int)
    requires forall x :: x in s ==> exists q: int :: g(x) == q * u
    ensures Sum(s, g) == k * u
    decreases |s|
  {
    if s == {} {
      k := 0;
    } else {
      var x :| x in s;
      SumRemove(s, g, x);
      var k' := SumMultiple(s - {x}, g, u);
      var q: int :| g(x) == q * u;
      k := q + k';
      assert (q + k') * u == q * u + k' * u;
    }
  }
}
