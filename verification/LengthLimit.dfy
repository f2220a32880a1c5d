/** trees.c: bringing the numbers of codes of each length back to what a prefix code can have, after lengths
    were cut off at the longest one. */
module LengthLimit {
  import opened Bits
  import opened SetSum
  import opened Huffman
  import opened Depths

  /** Code space taken by `c[b]` codes of each length `b` from 1 to `n`, in units of 2^-m. */
  function Space(c: seq<nat>, m: nat, n: nat): nat
    requires n <= m && n < |c|
  {
    if n == 0 then 0 else Space(c, m, n - 1) + Times(c[n], Pow2(m - n))
  }

  function Total(c: seq<nat>, n: nat): nat
    requires n < |c|
  {
    if n == 0 then 0 else Total(c, n - 1) + c[n]
  }

  lemma {:induction false} Update(c: seq<nat>, m: nat, n: nat, i: nat, v: nat)
    requires n <= m && n < |c| && 1 <= i < |c| && i <= m
    ensures Total(c[i := v], n) == Total(c, n) + if i <= n then v - c[i] else 0
    ensures Space(c[i := v], m, n) == Space(c, m, n) + if i <= n then Times(v, Pow2(m - i)) - Times(c[i], Pow2(m - i))
      else 0
  {
    if n > 0 { Update(c, m, n - 1, i, v); }
  }

  /** If only the longest length is used, the space taken is the number of codes. */
  lemma {:induction false} OnlyLongest(c: seq<nat>, m: nat, n: nat)
    requires n < m < |c| && forall b :: 1 <= b <= n ==> c[b] == 0
    ensures Space(c, m, n) == 0 && Total(c, n) == 0
  {
    if n > 0 { OnlyLongest(c, m, n - 1); }
  }

  /** Counts that take `half` more than all the space, with enough codes of the longest length. */
  ghost predicate Excess(c: seq<nat>, m: nat, half: nat, n: nat)
  {
    && 1 <= m < |c| && Space(c, m, m) == Pow2(m) + half && Total(c, m) == n <= Pow2(m)
    && c[m] >= half + if half > 0 then 1 else 0
  }

  lemma ShorterExists(c: seq<nat>, m: nat, half: nat, n: nat)
    requires Excess(c, m, half, n) && half > 0
    ensures exists b :: 1 <= b < m && c[b] != 0
  {
    if forall b :: 1 <= b < m ==> c[b] == 0 {
      OnlyLongest(c, m, m - 1);
    }
  }

  /** Moving one code down from length `b` and one overflow code up beside it. */
  ghost function Moved(c: seq<nat>, m: nat, b: nat): seq<nat>
    requires 1 <= b < m < |c| && c[b] >= 1 && c[m] >= 1
  {
    var c1 := c[b := c[b] - 1];
    var c2 := c1[b + 1 := c1[b + 1] + 2];
    c2[m := c2[m] - 1]
  }

  lemma MovedSpace(c: seq<nat>, m: nat, b: nat)
    requires 1 <= b < m < |c| && c[b] >= 1 && c[m] >= 1
    ensures Space(Moved(c, m, b), m, m) == Space(c, m, m) - 1 && Total(Moved(c, m, b), m) == Total(c, m)
  {
    hide Space, Total;
    var c1 := c[b := c[b] - 1];
    var c2 := c1[b + 1 := c1[b + 1] + 2];
    Update(c, m, m, b, c[b] - 1);
    Update(c1, m, m, b + 1, c1[b + 1] + 2);
    Update(c2, m, m, m, c2[m] - 1);
    assert Pow2(m - b) == 2 * Pow2(m - (b + 1)) && Pow2(m - m) == 1;
    Distrib(c[b] - 1, 1, Pow2(m - b));
    Distrib(c1[b + 1], 2, Pow2(m - (b + 1)));
  }

  lemma MovedExcess(c: seq<nat>, m: nat, b: nat, half: nat, n: nat)
    requires Excess(c, m, half, n) && half > 0 && 1 <= b < m && c[b] >= 1
    ensures Excess(Moved(c, m, b), m, half - 1, n)
  {
    MovedSpace(c, m, b);
  }

  /** Move codes until the code space is exactly full. No step finds the table without a shorter code, and
      no count goes below zero. */
  method RepairCounts(blCount: array<nat>, m: nat, overflow0: nat, ghost half0: nat, ghost n: nat)
    requires Excess(blCount[..], m, half0, n) && overflow0 == 2 * half0 && half0 > 0
    modifies blCount
    ensures Excess(blCount[..], m, 0, n)
    ensures forall b :: 0 <= b < blCount.Length && !(1 <= b <= m) ==> blCount[b] == old(blCount[b])
  {
    hide Space, Total;
    var overflow: int := overflow0;
    ghost var half := half0;
    while true
      invariant Excess(blCount[..], m, half, n) && overflow == 2 * half && half > 0
      invariant forall b :: 0 <= b < blCount.Length && !(1 <= b <= m) ==> blCount[b] == old(blCount[b])
      decreases half
    {
      ghost var c := blCount[..];
      ShorterExists(c, m, half, n);
      var bits := m - 1;
      while blCount[bits] == 0
        invariant 1 <= bits < m && exists b :: 1 <= b <= bits && blCount[b] != 0
        decreases bits
      {
        bits := bits - 1;
      }
      MovedExcess(c, m, bits, half, n);
      blCount[bits] := blCount[bits] - 1;
      blCount[bits + 1] := blCount[bits + 1] + 2;
      blCount[m] := blCount[m] - 1;
      assert blCount[..] == Moved(c, m, bits);
      overflow, half := overflow - 2, half - 1;
      if !(overflow > 0) { break; }
    }
  }

  /** Counting codes by length gives the space and the number of the codes. */
  lemma {:induction false} CountedSpace(c: seq<nat>, s: set<nat>, l: seq<nat>, m: nat)
    requires m < |c| && (forall x :: x in s ==> 1 <= At(l, x) <= m) && forall b :: 0 <= b < |c| ==>
      c[b] == Sum(s, Is(l, b))
    ensures Space(c, m, m) == Sum(s, Weight(l, m)) && Total(c, m) == |s|
    decreases |s|
  {
    if s == {} {
      NoCodes(c, m, m);
    } else {
      var x :| x in s;
      var v := At(l, x);
      forall b | 0 <= b < |c| ensures c[b] == Sum(s - {x}, Is(l, b)) + Is(l, b)(x) { SumRemove(s, Is(l, b), x); }
      SumNonNegative(s - {x}, Is(l, v));
      var c2 := c[v := c[v] - 1];
      CountedSpace(c2, s - {x}, l, m);
      Update(c, m, m, v, c[v] - 1);
      SumRemove(s, Weight(l, m), x);
      Distrib(c[v] - 1, 1, Pow2(m - v));
    }
  }

  lemma {:induction false} NoCodes(c: seq<nat>, m: nat, n: nat)
    requires n <= m && n < |c| && forall b :: 0 <= b < |c| ==> c[b] == 0
    ensures Space(c, m, n) == 0 && Total(c, n) == 0
  {
    if n > 0 { NoCodes(c, m, n - 1); }
  }
}
