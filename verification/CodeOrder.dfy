/** The canonical order of the symbols of a code: how a counting sort lists it, and how the code of
    one symbol leads to the code of the next. */
module CodeOrder {
  import opened Bits
  import opened Canonical

  /** Number of symbols in use whose code is shorter than `b`. */
  function CountBelow(lens: seq<nat>, b: nat): nat
  {
    if b <= 1 then 0 else CountBelow(lens, b - 1) + Count(lens, b - 1)
  }

  /** Index of symbol `s` in the canonical order. */
  function Index(lens: seq<nat>, s: nat): nat
    requires s < |lens|
  {
    CountBelow(lens, lens[s]) + Count(lens[..s], lens[s])
  }

  /** `work` lists the symbols in use in canonical order. */
  ghost predicate IsOrder(lens: seq<nat>, m: nat, work: seq<nat>)
  {
    && |work| == CountBelow(lens, m + 1)
    && (forall j :: 0 <= j < |work| ==> work[j] < |lens| && lens[work[j]] > 0)
    && (forall j {:trigger Index(lens, work[j])} :: 0 <= j < |work| ==> Index(lens, work[j]) == j)
  }

  lemma {:induction false} CountBelowMono(lens: seq<nat>, b: nat, c: nat)
    requires b <= c
    ensures CountBelow(lens, b) <= CountBelow(lens, c)
    decreases c
  {
    if b < c { CountBelowMono(lens, b, c - 1); }
  }

  lemma IndexBounds(lens: seq<nat>, m: nat, s: nat)
    requires s < |lens| && 0 < lens[s] <= m
    ensures CountBelow(lens, lens[s]) <= Index(lens, s) < CountBelow(lens, lens[s] + 1) <= CountBelow(lens, m + 1)
  {
    CountPrefix(lens, s, lens[s]);
    CountBelowMono(lens, lens[s] + 1, m + 1);
  }

  /** Distinct symbols have distinct places, in the canonical order. */
  lemma IndexOrdered(lens: seq<nat>, m: nat, s: nat, t: nat)
    requires s < |lens| && t < |lens| && 0 < lens[s] <= m && 0 < lens[t] <= m && Precedes(lens, s, t)
    ensures Index(lens, s) < Index(lens, t)
  {
    IndexBounds(lens, m, s);
    IndexBounds(lens, m, t);
    if lens[s] < lens[t] {
      CountBelowMono(lens, lens[s] + 1, lens[t]);
    } else {
      assert lens[..t][..s] == lens[..s];
      CountPrefix(lens[..t], s, lens[s]);
    }
  }

  /** Every symbol in use stands in the order at its index. */
  lemma OrderContains(lens: seq<nat>, m: nat, work: seq<nat>, s: nat)
    requires LensBounded(lens, m) && IsOrder(lens, m, work) && s < |lens| && lens[s] > 0
    ensures Index(lens, s) < |work| && work[Index(lens, s)] == s
  {
    IndexBounds(lens, m, s);
    var t := work[Index(lens, s)];
    if t != s {
      if Precedes(lens, s, t) { IndexOrdered(lens, m, s, t); } else { IndexOrdered(lens, m, t, s); }
    }
  }

  lemma OrderSorted(lens: seq<nat>, m: nat, work: seq<nat>, i: nat, j: nat)
    requires LensBounded(lens, m) && IsOrder(lens, m, work) && i < j < |work|
    ensures Precedes(lens, work[i], work[j])
  {
    assert Index(lens, work[i]) == i && Index(lens, work[j]) == j;
    if !Precedes(lens, work[i], work[j]) && work[i] != work[j] {
      IndexOrdered(lens, m, work[j], work[i]);
    }
  }

  lemma {:induction false} NoneBetween(lens: seq<nat>, m: nat, b: nat, c: nat)
    requires b <= c <= m + 1 && 1 <= b && CountBelow(lens, b) == CountBelow(lens, c)
    ensures KraftBelow(lens, m, b) == KraftBelow(lens, m, c)
    decreases c
  {
    if b < c {
      CountBelowMono(lens, b, c - 1);
      NoneBetween(lens, m, b, c - 1);
      KraftBelowStep(lens, m, c - 1);
    }
  }

  /** In canonical order, each code begins in the code space where the one before it ends. */
  lemma Consecutive(lens: seq<nat>, m: nat, s: nat, t: nat)
    requires s < |lens| && t < |lens| && 0 < lens[s] <= m && 0 < lens[t] <= m
    requires Index(lens, t) == Index(lens, s) + 1
    ensures lens[s] <= lens[t]
    ensures Start(lens, m, t) == Start(lens, m, s) + Pow2(m - lens[s])
    ensures lens[s] == lens[t] ==> Count(lens[..t], lens[t]) == Count(lens[..s], lens[s]) + 1
    ensures lens[s] < lens[t] ==> Count(lens[..s], lens[s]) + 1 == Count(lens, lens[s])
    ensures lens[s] < lens[t] ==> Count(lens[..t], lens[t]) == 0
  {
    var b, c, p := lens[s], lens[t], Pow2(m - lens[s]);
    IndexBounds(lens, m, s);
    IndexBounds(lens, m, t);
    FirstCodeIsKraft(lens, m, b);
    FirstCodeIsKraft(lens, m, c);
    if c < b { CountBelowMono(lens, c + 1, b); }
    if b == c {
      Distrib(Code(lens, s), 1, p);
    } else {
      CountBelowMono(lens, b + 1, c);
      NoneBetween(lens, m, b + 1, c);
      KraftBelowStep(lens, m, b);
      assert Code(lens, s) + 1 == FirstCode(lens, b) + Count(lens, b);
      Distrib(FirstCode(lens, b), Count(lens, b), p);
      Distrib(Code(lens, s), 1, p);
    }
  }

  /** The first code starts the code space and the last one ends it. */
  lemma FirstAndLast(lens: seq<nat>, m: nat, s: nat)
    requires s < |lens| && 0 < lens[s] <= m
    ensures Index(lens, s) == 0 ==> Code(lens, s) == 0 && Start(lens, m, s) == 0
    ensures Index(lens, s) + 1 == CountBelow(lens, m + 1) ==> Start(lens, m, s) + Pow2(m - lens[s]) == Kraft(lens, m)
  {
    var b, p := lens[s], Pow2(m - lens[s]);
    IndexBounds(lens, m, s);
    FirstCodeIsKraft(lens, m, b);
    if Index(lens, s) == 0 {
      assert CountBelow(lens, 1) == 0;
      NoneBetween(lens, m, 1, b);
      KraftBelowOne(lens, m);
      MulPositive(FirstCode(lens, b), p);
    }
    if Index(lens, s) + 1 == CountBelow(lens, m + 1) {
      NoneBetween(lens, m, b + 1, m + 1);
      KraftBelowStep(lens, m, b);
      assert Code(lens, s) + 1 == FirstCode(lens, b) + Count(lens, b);
      Distrib(FirstCode(lens, b), Count(lens, b), p);
      Distrib(Code(lens, s), 1, p);
    }
  }

  lemma MulPositive(a: nat, p: nat)
    requires p > 0 && a * p == 0
    ensures a == 0
  {
    if a > 0 { MulMono(1, a, p); }
  }

  /** The code read from its other end and incremented there. */
  function RevInc(bs: seq<bool>): (r: seq<bool>)
    ensures |r| == |bs|
  {
    if bs == [] then []
    else if bs[|bs| - 1] then RevInc(bs[..|bs| - 1]) + [false]
    else bs[..|bs| - 1] + [true]
  }

  lemma {:induction false} RevIncMsb(bs: seq<bool>)
    ensures MsbValue(bs) + 1 < Pow2(|bs|) ==> MsbValue(RevInc(bs)) == MsbValue(bs) + 1
    ensures MsbValue(bs) + 1 == Pow2(|bs|) ==> MsbValue(RevInc(bs)) == 0
  {
    if bs != [] {
      var p := bs[..|bs| - 1];
      RevIncMsb(p);
      MsbBound(p);
      assert RevInc(bs)[..|bs| - 1] == if bs[|bs| - 1] then RevInc(p) else p;
    }
  }

  function Zeros(n: nat): (z: seq<bool>)
    ensures |z| == n && Value(z) == 0 && MsbValue(z) == 0
  {
    if n == 0 then [] else
      var z := Zeros(n - 1);
      assert ([false] + z)[1..] == z && (z + [false])[..n - 1] == z;
      ZerosCommute(z);
      [false] + z
  }

  lemma {:induction false} ZerosCommute(z: seq<bool>)
    requires MsbValue(z) == 0
    ensures MsbValue([false] + z) == 0
  {
    MsbConcat([false], z);
    assert MsbValue([false]) == 0 by { assert [false][..0] == []; }
  }

  /** The next code is the increment of the one before, with zeros appended to the longer length. */
  lemma NextCode(lens: seq<nat>, m: nat, s: nat, t: nat)
    requires s < |lens| && t < |lens| && 0 < lens[s] <= m && 0 < lens[t] <= m && Kraft(lens, m) <= Pow2(m)
    requires Index(lens, t) == Index(lens, s) + 1
    ensures lens[s] <= lens[t]
    ensures MsbValue(CodeBits(lens, t)) == (MsbValue(CodeBits(lens, s)) + 1) * Pow2(lens[t] - lens[s])
    ensures MsbValue(CodeBits(lens, s)) + 1 < Pow2(lens[s])
  {
    hide Index, CountBelow, MsbValue, Kraft, KraftBelow, Code, Pow2;
    Consecutive(lens, m, s, t);
    CodeFits(lens, m, s);
    CodeFits(lens, m, t);
    ScaledNext(Code(lens, s), Code(lens, t), m, lens[s], lens[t]);
  }

  /** Incrementing a code from its other end, then padding, gives the next code. */
  lemma NextCodeBits(lens: seq<nat>, m: nat, s: nat, t: nat)
    requires s < |lens| && t < |lens| && 0 < lens[s] <= m && 0 < lens[t] <= m && Kraft(lens, m) <= Pow2(m)
    requires Index(lens, t) == Index(lens, s) + 1
    ensures lens[s] <= lens[t] && CodeBits(lens, t) == RevInc(CodeBits(lens, s)) + Zeros(lens[t] - lens[s])
    ensures Value(CodeBits(lens, t)) == Value(RevInc(CodeBits(lens, s)))
  {
    hide Index, CountBelow, MsbValue, Kraft, KraftBelow, Code, Pow2, RevInc, Zeros, CodeBits, Value;
    NextCode(lens, m, s, t);
    NextString(CodeBits(lens, s), CodeBits(lens, t));
  }

  lemma NextString(a: seq<bool>, b: seq<bool>)
    requires |a| <= |b| && MsbValue(a) + 1 < Pow2(|a|)
    requires MsbValue(b) == (MsbValue(a) + 1) * Pow2(|b| - |a|)
    ensures b == RevInc(a) + Zeros(|b| - |a|) && Value(b) == Value(RevInc(a))
  {
    hide RevInc, Zeros, MsbValue, Value, Pow2;
    RevIncMsb(a);
    PadZeros(RevInc(a), |b| - |a|);
    MsbInjective(b, RevInc(a) + Zeros(|b| - |a|));
  }

  lemma PadZeros(r: seq<bool>, n: nat)
    ensures Value(r + Zeros(n)) == Value(r)
    ensures MsbValue(r + Zeros(n)) == MsbValue(r) * Pow2(n)
  {
    ValueConcat(r, Zeros(n));
    MsbConcat(r, Zeros(n));
  }

  lemma ScaledNext(x: nat, y: nat, m: nat, b: nat, c: nat)
    requires b <= c <= m && x < Pow2(b) && y < Pow2(c) && y * Pow2(m - c) == x * Pow2(m - b) + Pow2(m - b)
    ensures y == (x + 1) * Pow2(c - b) && x + 1 < Pow2(b)
  {
    var u, d := Pow2(m - c), Pow2(c - b);
    Pow2Add(c - b, m - c);
    assert (x + 1) * (d * u) == y * u by { Distrib(x, 1, d * u); }
    MulAssoc(x + 1, d, u);
    MulCancel(y, (x + 1) * d, u);
    if x + 1 >= Pow2(b) {
      Pow2Add(b, c - b);
      MulMono(Pow2(b), x + 1, d);
    }
  }

  lemma MulCancel(a: int, b: int, p: int)
    requires p > 0 && a * p == b * p
    ensures a == b
  {
    if a < b { MulStep(a, b, p); }
    if b < a { MulStep(b, a, p); }
  }

  /** Incrementing the last code of a complete code wraps to zero. */
  lemma LastCodeWraps(lens: seq<nat>, m: nat, s: nat)
    requires s < |lens| && 0 < lens[s] <= m && Kraft(lens, m) <= Pow2(m)
    requires Index(lens, s) + 1 == CountBelow(lens, m + 1)
    ensures Value(RevInc(CodeBits(lens, s))) == 0 <==> Kraft(lens, m) == Pow2(m)
  {
    FirstAndLast(lens, m, s);
    CodeFits(lens, m, s);
    AllOnesWhenFull(Code(lens, s), m, lens[s]);
    RevIncMsb(CodeBits(lens, s));
    var r := RevInc(CodeBits(lens, s));
    if MsbValue(r) == 0 { MsbInjective(r, Zeros(lens[s])); }
    if Value(r) == 0 { ValueInjective(r, Zeros(lens[s])); }
  }

  lemma AllOnesWhenFull(x: nat, m: nat, b: nat)
    requires b <= m && x < Pow2(b)
    ensures x * Pow2(m - b) + Pow2(m - b) == Pow2(m) <==> x + 1 == Pow2(b)
  {
    Pow2Sub(m, m - b);
    Distrib(x, 1, Pow2(m - b));
    if (x + 1) * Pow2(m - b) == Pow2(b) * Pow2(m - b) { MulCancel(x + 1, Pow2(b), Pow2(m - b)); }
  }
}
