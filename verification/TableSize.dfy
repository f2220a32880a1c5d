/** How large a decoding table gets: the root table and the sub-tables, from the code lengths in order. */
module TableSize {
  import opened Bits

  /** Code lengths in canonical order. */
  ghost predicate Ascending(ls: seq<nat>, m: nat)
  {
    forall i, j :: 0 <= i <= j < |ls| ==> 1 <= ls[i] <= ls[j] <= m
  }

  /** Code space of the codes from `j` on, in units of 2^-m. */
  ghost function Rest(ls: seq<nat>, m: nat, j: nat): nat
    requires Ascending(ls, m)
    decreases |ls| - j
  {
    if j >= |ls| then 0 else Pow2(m - ls[j]) + Rest(ls, m, j + 1)
  }

  /** Length of the code with which the codes from `j` on fill up `space`. */
  ghost function GroupEnd(ls: seq<nat>, m: nat, j: nat, space: int): (b: nat)
    requires Ascending(ls, m) && j < |ls|
    ensures ls[j] <= b <= m
    decreases |ls| - j
  {
    if space <= Pow2(m - ls[j]) || j + 1 == |ls| then ls[j] else GroupEnd(ls, m, j + 1, space - Pow2(m - ls[j]))
  }

  /** Sizes of the sub-tables opened from code `j` on, when `left` is the space left in the group at hand: a code of
      more than `r` bits that finds none opens a sub-table for the codes with its first `r` bits. */
  ghost function SubSizes(ls: seq<nat>, m: nat, r: nat, j: nat, left: int): nat
    requires Ascending(ls, m) && r <= m
    decreases |ls| - j, if left <= 0 then 1 else 0
  {
    if j >= |ls| then 0
    else if ls[j] <= r then SubSizes(ls, m, r, j + 1, 0)
    else if left <= 0 then Pow2(GroupEnd(ls, m, j, Pow2(m - r)) - r) + SubSizes(ls, m, r, j, Pow2(m - r))
    else SubSizes(ls, m, r, j + 1, left - Pow2(m - ls[j]))
  }

  ghost function Size(ls: seq<nat>, m: nat, r: nat): nat
    requires Ascending(ls, m) && r <= m
  {
    Pow2(r) + SubSizes(ls, m, r, 0, 0)
  }

  /** Number of codes of more than `r` bits from `j` on. */
  ghost function Long(ls: seq<nat>, r: nat, j: nat): nat
    decreases |ls| - j
  {
    if j >= |ls| then 0 else (if ls[j] > r then 1 else 0) + Long(ls, r, j + 1)
  }

  lemma {:induction false} PowGrows(a: nat, b: nat)
    requires a <= b
    ensures Pow2(a) - a <= Pow2(b) - b
    decreases b
  {
    if a < b { PowGrows(a, b - 1); }
  }

  /** What a sub-table may add beyond one entry for each of its codes. */
  ghost function Waste(c: nat): int { Pow2(c) - 1 - c }

  lemma Doubling(x: nat, d: nat)
    requires x >= 1
    ensures x + d <= x * Pow2(d)
  {
    PowGrows(0, d);
    assert Pow2(0) == 1;
    MulMono(1 + d, Pow2(d), x);
    assert x * d >= d;
    Distrib(1, d, x);
  }

  /** Within a group: `rem` codes of the length at hand would fill it up. */
  lemma {:induction false} Inside(ls: seq<nat>, m: nat, r: nat, j: nat, left: int, rem: nat, q: nat, n: nat, long: nat,
                                  c: nat, top: nat)
    requires Ascending(ls, m) && r <= m && j < |ls| && ls[j] > r && rem >= 1 && left == rem * Pow2(m - ls[j])
    requires Rest(ls, m, j) == q * Pow2(m - r) + left && GroupEnd(ls, m, j, left) == r + c
    requires n <= long + rem + Pow2(c) - 1 - (ls[j] - r) && Ascending(ls, top) && top <= m
    ensures n + SubSizes(ls, m, r, j, left) <= long + Long(ls, r, j) + Waste(top - r)
    decreases |ls| - j, 0
  {
    var u := Pow2(m - ls[j]);
    Distrib(rem - 1, 1, u);
    MulMono(1, rem, u);
    if rem == 1 {
      Boundary(ls, m, r, j + 1, q, n, long + 1, ls[j], top);
    } else {
      MulMono(1, rem - 1, u);
      assert j + 1 < |ls| by { if j + 1 >= |ls| { assert Rest(ls, m, j + 1) == 0; MulMono(0, q, Pow2(m - r)); } }
      var d := ls[j + 1] - ls[j];
      Pow2Add(d, m - ls[j + 1]);
      MulAssoc(rem - 1, Pow2(d), Pow2(m - ls[j + 1]));
      Doubling(rem - 1, d);
      Inside(ls, m, r, j + 1, left - u, (rem - 1) * Pow2(d), q, n, long + 1, c, top);
    }
  }

  /** Between groups. */
  lemma {:induction false} Boundary(ls: seq<nat>, m: nat, r: nat, j: nat, q: nat, n: nat, long: nat, a: nat, top: nat)
    requires Ascending(ls, m) && r <= a <= top <= m && Ascending(ls, top) && Rest(ls, m, j) == q * Pow2(m - r)
    requires j < |ls| ==> if ls[j] <= r then n == 0 == long && a == r else a <= ls[j]
    requires n <= long + Waste(a - r)
    ensures n + SubSizes(ls, m, r, j, 0) <= long + Long(ls, r, j) + Waste(top - r)
    decreases |ls| - j, 1
  {
    hide Pow2;
    var g := Pow2(m - r);
    if j >= |ls| {
      PowGrows(a - r, top - r);
    } else if ls[j] <= r {
      Pow2Add(r - ls[j], m - r);
      Distrib(q - Pow2(r - ls[j]), Pow2(r - ls[j]), g);
      if q < Pow2(r - ls[j]) { MulStep(q, Pow2(r - ls[j]), g); }
      Boundary(ls, m, r, j + 1, q - Pow2(r - ls[j]), 0, 0, r, top);
    } else {
      Pow2Add(ls[j] - r, m - ls[j]);
      PowGrows(a - r, ls[j] - r);
      Distrib(q - 1, 1, g);
      assert q >= 1;
      var c := GroupEnd(ls, m, j, g) - r;
      Inside(ls, m, r, j, g, Pow2(ls[j] - r), q - 1, n + Pow2(c), long, c, top);
    }
  }

  /** A complete code with codes of up to `top` bits needs at most one entry for each long code, and the waste of one
      sub-table of full depth. */
  lemma SizeBound(ls: seq<nat>, m: nat, r: nat, top: nat)
    requires Ascending(ls, m) && Ascending(ls, top) && r <= top <= m && Rest(ls, m, 0) == Pow2(m)
    ensures Size(ls, m, r) <= Pow2(r) + Long(ls, r, 0) + Waste(top - r)
  {
    Pow2Add(r, m - r);
    assert Pow2(0) == 1;
    Boundary(ls, m, r, 0, Pow2(r), 0, 0, r, top);
  }

  lemma {:induction false} SubSizesEven(ls: seq<nat>, m: nat, r: nat, j: nat, left: int)
    requires Ascending(ls, m) && r <= m
    ensures SubSizes(ls, m, r, j, left) % 2 == 0
    decreases |ls| - j, if left <= 0 then 1 else 0
  {
    if j < |ls| {
      if ls[j] <= r {
        SubSizesEven(ls, m, r, j + 1, 0);
      } else if left <= 0 {
        SubSizesEven(ls, m, r, j, Pow2(m - r));
      } else {
        SubSizesEven(ls, m, r, j + 1, left - Pow2(m - ls[j]));
      }
    }
  }

  /** Codes of at least `b` bits take up little space. */
  lemma {:induction false} RestBound(ls: seq<nat>, m: nat, j: nat, b: nat)
    requires Ascending(ls, m) && j <= |ls| && b <= m && (j < |ls| ==> b <= ls[j])
    ensures Rest(ls, m, j) <= (|ls| - j) * Pow2(m - b)
    decreases |ls| - j
  {
    if j < |ls| {
      RestBound(ls, m, j + 1, b);
      Pow2Mono(m - ls[j], m - b);
      Distrib(|ls| - j - 1, 1, Pow2(m - b));
    }
  }

  lemma {:induction false} LongBound(ls: seq<nat>, r: nat, j: nat, k: nat)
    requires k <= |ls| && forall i :: j <= i < k ==> ls[i] <= r
    ensures Long(ls, r, j) <= if j < k then |ls| - k else if j < |ls| then |ls| - j else 0
    decreases |ls| - j
  {
    if j < |ls| { LongBound(ls, r, j + 1, k); }
  }

  lemma {:induction false} NoLong(ls: seq<nat>, m: nat, r: nat, j: nat)
    requires Ascending(ls, m) && r <= m && forall i :: 0 <= i < |ls| ==> ls[i] <= r
    ensures SubSizes(ls, m, r, j, 0) == 0
    decreases |ls| - j
  {
    if j < |ls| { NoLong(ls, m, r, j + 1); }
  }

  /** Of 286 codes, at least two are short. */
  lemma TwoShort(ls: seq<nat>)
    requires Ascending(ls, 15) && Rest(ls, 15, 0) == Pow2(15) && |ls| <= 286
    ensures Long(ls, 9, 0) <= 284
  {
    Pow2Values();
    Pow2Mono(15 - ls[0], 14);
    assert Rest(ls, 15, 0) == Pow2(15 - ls[0]) + Rest(ls, 15, 1);
    assert |ls| >= 2;
    if ls[1] > 9 {
      RestBound(ls, 15, 1, 10);
    }
    LongBound(ls, 9, 0, 2);
  }

  /** Of 30 codes, at least three are short, unless there are only two. */
  lemma ThreeShort(ls: seq<nat>)
    requires Ascending(ls, 15) && Rest(ls, 15, 0) == Pow2(15) && |ls| <= 30
    ensures Long(ls, 6, 0) <= 27
  {
    hide Long;
    Pow2Values();
    assert Pow2(13) == 0x2000;
    Pow2Mono(15 - ls[0], 14);
    assert Rest(ls, 15, 0) == Pow2(15 - ls[0]) + Rest(ls, 15, 1);
    assert |ls| >= 2;
    Pow2Mono(15 - ls[1], 15 - ls[0]);
    assert Rest(ls, 15, 1) == Pow2(15 - ls[1]) + Rest(ls, 15, 2);
    if |ls| >= 3 {
      assert Rest(ls, 15, 2) >= 1;
      if ls[1] > 1 { Pow2Mono(15 - ls[1], 13); }
      if ls[2] > 6 { RestBound(ls, 15, 2, 7); }
      LongBound(ls, 6, 0, 3);
    } else {
      LongBound(ls, 6, 0, 0);
    }
  }

  /** The root table has the bits asked for, unless all codes are shorter or all are longer, or there are none. */
  ghost predicate RootOf(ls: seq<nat>, bits: nat, r: nat)
  {
    || r == bits
    || (r < bits && forall i :: 0 <= i < |ls| ==> ls[i] <= r)
    || (r > bits && ls != [] && forall i :: 0 <= i < |ls| ==> ls[i] >= r)
    || (ls == [] && r == 1)
  }

  /** No complete code for lengths and literals needs more than 852 entries. */
  lemma EnoughLens(ls: seq<nat>, r: nat)
    requires Ascending(ls, 15) && r <= 15 && Rest(ls, 15, 0) == Pow2(15) && |ls| <= 286 && RootOf(ls, 9, r)
    ensures Size(ls, 15, r) <= 852
  {
    Pow2Values();
    if r == 9 {
      SizeBound(ls, 15, 9, 15);
      TwoShort(ls);
      SubSizesEven(ls, 15, 9, 0, 0);
      assert Pow2(6) == 64;
    } else if r < 9 {
      NoLong(ls, 15, r, 0);
      Pow2Mono(r, 9);
    } else {
      RestBound(ls, 15, 0, 10);
    }
  }

  /** No complete code for distances needs more than 592 entries. */
  lemma EnoughDists(ls: seq<nat>, r: nat)
    requires Ascending(ls, 15) && r <= 15 && Rest(ls, 15, 0) == Pow2(15) && |ls| <= 30 && RootOf(ls, 6, r)
    ensures Size(ls, 15, r) <= 592
  {
    Pow2Values();
    assert Pow2(6) == 64;
    if r == 6 {
      SizeBound(ls, 15, 6, 15);
      ThreeShort(ls);
      SubSizesEven(ls, 15, 6, 0, 0);
    } else if r < 6 {
      NoLong(ls, 15, r, 0);
      Pow2Mono(r, 6);
    } else {
      RestBound(ls, 15, 0, 7);
    }
  }

  /** A table only uses all its space if one of the codes is as long as can be. */
  lemma LongestNeeded(ls: seq<nat>)
    requires Ascending(ls, 14) && Ascending(ls, 15) && Rest(ls, 15, 0) == Pow2(15)
    ensures |ls| <= 286 ==> Size(ls, 15, 9) < 852
    ensures |ls| <= 30 ==> Size(ls, 15, 6) < 592
  {
    hide Size, Long;
    Pow2Values();
    assert Pow2(5) == 32 && Pow2(6) == 64;
    if |ls| <= 286 {
      SizeBound(ls, 15, 9, 14);
      TwoShort(ls);
    }
    if |ls| <= 30 {
      SizeBound(ls, 15, 6, 14);
      ThreeShort(ls);
    }
  }
}
