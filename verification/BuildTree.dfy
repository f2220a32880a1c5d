/** trees.c: from symbol frequencies to a complete, canonical prefix code of limited length. */
module BuildTree {
  import opened Bits
  import opened Canonical
  import opened GenCodes
  import opened SetSum
  import opened Huffman
  import opened Merging
  import opened TreeBuild
  import opened TreeDepth
  import opened Depths
  import opened BitLengths
  import opened LengthLimit
  import opened Reassign
  import BlockEncoder

  /** Lengths that fill the code space exactly, none longer than `m`, shorter ones for more frequent symbols. */
  ghost predicate GoodLengths(s: set<nat>, f: seq<nat>, l: seq<nat>, m: nat)
  {
    && (forall x :: x in s ==> 1 <= At(l, x) <= m && x < |l|)
    && Sum(s, Weight(l, m)) == Pow2(m) && Monotone(s, f, l)
  }

  /** No prefix code for the symbols `s` takes fewer bits. */
  ghost predicate Cheapest(s: set<nat>, f: seq<nat>, l: seq<nat>)
  {
    forall l2, k {:trigger Feasible(s, l2, k)} :: Feasible(s, l2, k) ==> Cost(s, f, l) <= Cost(s, f, l2)
  }

  lemma MergedIsCheapest(g: Merges, f: seq<nat>, f2: seq<nat>, l: seq<nat>)
    requires Progress(g, f, f2) && |g.pairs| >= 1 && g.Roots() == {g.elems + |g.pairs| - 1}
    requires Cost(g.Leaves(), f, l) == Merged(g, f2, |g.pairs|)
    ensures Cheapest(g.Leaves(), f, l)
  {
    hide Cost, Feasible;
    forall l2, k {:trigger Feasible(g.Leaves(), l2, k)} | Feasible(g.Leaves(), l2, k)
      ensures Cost(g.Leaves(), f, l) <= Cost(g.Leaves(), f, l2)
    {
      LowerBoundEnd(g.Leaves(), f, g.elems + |g.pairs| - 1, f2, Merged(g, f2, |g.pairs|), l2, k);
    }
  }

  /** Some cheapest prefix code has a code of more than `m` bits. */
  ghost predicate Deeper(s: set<nat>, f: seq<nat>, m: nat)
  {
    exists l, k, x :: Feasible(s, l, k) && Cheapest(s, f, l) && x in s && At(l, x) > m
  }

  /** Nothing is cut off unless the tree, which is a cheapest code, is too high. */
  lemma CutMeansDeeper(g: Merges, f: seq<nat>, f2: seq<nat>, m: nat)
    requires Progress(g, f, f2) && |g.pairs| >= 1 && g.Roots() == {g.elems + |g.pairs| - 1} && TreeHeight(g) > m
    requires forall x :: 0 <= x < g.elems ==> At(f, x) == At(f2, x)
    ensures Deeper(g.Leaves(), f, m)
  {
    hide Sum, Pow2, Merged, Height, Weight, Is, Cheapest, LowerBound, Times, TreeHeight, FreqsAdd, RemovedInOrder;
    var l, x := TrueLengths(g, f2, 0);
    assert IdsBelow(g.forests[0], g.elems + 0);
    LeafHeight(g, x);
    MergedNone(g, f2);
    SumAgree(g.Leaves(), Price(f, l), Price(f2, l));
    MergedIsCheapest(g, f, f2, l);
    assert Feasible(g.Leaves(), l, |g.pairs| + 1);
  }

  /** A code of `n` bits takes a total frequency of at least the Fibonacci number of `n + 2`. */
  ghost predicate Earned(s: set<nat>, f: seq<nat>, l: seq<nat>)
  {
    forall x :: x in s ==> Fib(At(l, x) + 2) <= Sum(s, FreqOf(f))
  }

  /** Lengths are cut off: the tree is a cheapest code that is too long, and it takes a total frequency that large. */
  ghost predicate TooHigh(s: set<nat>, f: seq<nat>, m: nat) { Deeper(s, f, m) && Fib(m + 3) <= Sum(s, FreqOf(f)) }

  lemma HighEarned(g: Merges, f: seq<nat>, f2: seq<nat>, m: nat)
    requires Progress(g, f, f2) && Occurring(g, f) && |g.pairs| >= 1 && g.Roots() == {g.elems + |g.pairs| - 1}
    requires (forall x :: 0 <= x < g.elems ==> At(f, x) == At(f2, x)) && TreeHeight(g) > m
    ensures Fib(m + 3) <= Sum(g.Leaves(), FreqOf(f))
  {
    hide Sum, Merged, Height, LowerBound, TreeHeight, FreqsAdd, RemovedInOrder, Fib;
    assert IdsBelow(g.forests[0], g.elems + 0);
    SumAgree(g.Leaves(), FreqOf(f), FreqOf(f2));
    HeightEarned(g, f2, m + 1);
  }

  /** No length is more than the height of the tree, unless it is cut off. */
  lemma LengthsEarned(g: Merges, f: seq<nat>, f2: seq<nat>, l: seq<nat>)
    requires Progress(g, f, f2) && Occurring(g, f) && |g.pairs| >= 1 && g.Roots() == {g.elems + |g.pairs| - 1}
    requires (forall x :: 0 <= x < g.elems ==> At(f, x) == At(f2, x)) && forall x :: x in g.Leaves() ==>
      At(l, x) <= TreeHeight(g)
    ensures Earned(g.Leaves(), f, l)
  {
    hide Sum, Merged, Height, LowerBound, TreeHeight, FreqsAdd, RemovedInOrder, Fib;
    assert IdsBelow(g.forests[0], g.elems + 0);
    SumAgree(g.Leaves(), FreqOf(f), FreqOf(f2));
    forall x | x in g.Leaves() ensures Fib(At(l, x) + 2) <= Sum(g.Leaves(), FreqOf(f)) {
      HeightEarned(g, f2, At(l, x));
    }
  }

  /** After the first pass. */
  lemma PassedLevels(g: Merges, f: seq<nat>, f2: seq<nat>, l: seq<nat>, desc: StaticDesc, half: nat)
    requires Passing(g, f, f2, l, desc, 0, half)
    ensures (forall x :: x in g.Leaves() ==> At(l, x) <= TreeHeight(g)) && (half > 0 ==> TreeHeight(g) > desc.maxLength)
  {
    hide Sum, Pow2, Merged, Height, Weight, Is, Cost, TreeHeight, FreqsAdd;
  }

  lemma RearrangeStrict(a: nat, b: nat, x: nat, y: nat)
    requires a < b && x < y
    ensures Times(a, y) + Times(b, x) < Times(a, x) + Times(b, y)
  {
    Distrib(b - a, a, x);
    Distrib(b - a, a, y);
    assert (b - a) * x < (b - a) * y;
  }

  /** Exchanging the lengths of a symbol and a more frequent one with a longer code is cheaper. */
  lemma ExchangeCheaper(s: set<nat>, f: seq<nat>, l: seq<nat>, m: nat, x: nat, y: nat) returns (l2: seq<nat>)
    requires Feasible(s, l, m) && x in s && y in s && At(f, x) < At(f, y) && At(l, x) < At(l, y)
    ensures Feasible(s, l2, m) && Cost(s, f, l2) < Cost(s, f, l)
  {
    hide Times, Sum, Weight;
    l2 := l[x := l[y]][y := l[x]];
    SwapKraft(s, l, l2, m, x, y);
    SumTwo(s, Price(f, l), x, y);
    SumTwo(s, Price(f, l2), x, y);
    SumAgree(s - {x} - {y}, Price(f, l), Price(f, l2));
    RearrangeStrict(At(f, x), At(f, y), At(l, x), At(l, y));
  }

  /** So a cheapest code gives no longer code to a more frequent symbol. */
  lemma CheapestIsMonotone(s: set<nat>, f: seq<nat>, l: seq<nat>, m: nat)
    requires Cheapest(s, f, l) && Feasible(s, l, m)
    ensures Monotone(s, f, l)
  {
    hide Feasible, Cost;
    forall x, y | x in s && y in s && At(f, x) < At(f, y) ensures At(l, x) >= At(l, y) {
      if At(l, x) < At(l, y) { var l2 := ExchangeCheaper(s, f, l, m, x, y); }
    }
  }

  lemma {:induction false} SumScale(s: set<nat>, w: nat -> int, w2: nat -> int, u: int)
    requires forall x :: x in s ==> w2(x) == w(x) * u
    ensures Sum(s, w2) == Sum(s, w) * u
    decreases |s|
  {
    if s != {} {
      var x :| x in s;
      SumRemove(s, w, x);
      SumRemove(s, w2, x);
      SumScale(s - {x}, w, w2, u);
      Distrib(w(x), Sum(s - {x}, w), u);
    }
  }

  /** A code space filled in units of 2^-m is filled in smaller units too. */
  lemma FullAtAnyScale(s: set<nat>, l: seq<nat>, m: nat, big: nat)
    requires m <= big && (forall x :: x in s ==> At(l, x) <= m) && Sum(s, Weight(l, m)) == Pow2(m)
    ensures Sum(s, Weight(l, big)) == Pow2(big)
  {
    hide Pow2, Sum;
    forall x | x in s ensures Weight(l, big)(x) == Weight(l, m)(x) * Pow2(big - m) {
      Pow2Add(m - At(l, x), big - m);
      assert m - At(l, x) + (big - m) == big - At(l, x);
    }
    SumScale(s, Weight(l, m), Weight(l, big), Pow2(big - m));
    Pow2Add(m, big - m);
  }

  /** Symbols of `s` below `n`. */
  ghost function Under(s: set<nat>, n: nat): set<nat> { set x | x in s && x < n }

  /** Lengths in symbol order: the symbols in `s` and no others have one. */
  ghost predicate LengthsOf(lens: seq<nat>, s: set<nat>, l: seq<nat>)
  {
    && (forall x :: 0 <= x < |lens| ==> lens[x] == At(l, x) && (lens[x] != 0 <==> x in s))
    && forall x :: x in s ==> x < |lens|
  }

  lemma NoSum(w: nat -> int)
    ensures Sum({}, w) == 0
  {
  }

  lemma {:induction false} CountIsSum(lens: seq<nat>, s: set<nat>, l: seq<nat>, m: nat, b: nat, n: nat)
    requires LengthsOf(lens, s, l) && b >= 1 && n <= |lens| && LensBounded(lens, m)
    ensures Count(lens[..n], b) == Sum(Under(s, n), Is(l, b))
    ensures Kraft(lens[..n], m) == Sum(Under(s, n), Weight(l, m))
  {
    hide Pow2, Sum;
    if n == 0 {
      assert Under(s, 0) == {};
      NoSum(Is(l, b));
      NoSum(Weight(l, m));
    } else {
      CountIsSum(lens, s, l, m, b, n - 1);
      assert lens[..n][..n - 1] == lens[..n - 1];
      if lens[n - 1] != 0 {
        SumAdd(Under(s, n - 1), Is(l, b), n - 1);
        SumAdd(Under(s, n - 1), Weight(l, m), n - 1);
        assert Under(s, n) == Under(s, n - 1) + {n - 1};
      } else {
        assert Under(s, n) == Under(s, n - 1);
      }
    }
  }

  lemma LengthsCount(lens: seq<nat>, s: set<nat>, l: seq<nat>, m: nat, b: nat)
    requires LengthsOf(lens, s, l) && b >= 1 && LensBounded(lens, m)
    ensures Count(lens, b) == Sum(s, Is(l, b)) && Kraft(lens, m) == Sum(s, Weight(l, m))
  {
    CountIsSum(lens, s, l, m, b, |lens|);
    assert lens[..|lens|] == lens && Under(s, |lens|) == s;
  }

  /** The early return: nothing was cut off. */
  lemma UncutLengths(g: Merges, f: seq<nat>, f2: seq<nat>, l: seq<nat>, desc: StaticDesc)
    requires desc.Valid() && Passing(g, f, f2, l, desc, 0, 0) && Progress(g, f, f2)
    requires |g.pairs| >= 1 && g.Roots() == {g.elems + |g.pairs| - 1}
      && (forall x :: 0 <= x < g.elems ==> At(f, x) == At(f2, x))
    ensures GoodLengths(g.Leaves(), f, l, desc.maxLength) && Cheapest(g.Leaves(), f, l)
  {
    hide Sum, Pow2, Weight, Is, Merged, Cheapest, LowerBound, Times;
    assert IdsBelow(g.forests[0], g.elems + 0);
    assert Merged(g, f2, 0) == 0 by { MergedNone(g, f2); }
    SumAgree(g.Leaves(), Price(f, l), Price(f2, l));
    MergedIsCheapest(g, f, f2, l);
    CheapestIsMonotone(g.Leaves(), f, l, desc.maxLength);
  }

  lemma MergedNone(g: Merges, f: seq<nat>)
    ensures Merged(g, f, 0) == 0
  {
  }

  /** The counts after the first pass take too much space by the number of pairs cut off. */
  lemma CutCounts(g: Merges, f: seq<nat>, f2: seq<nat>, l: seq<nat>, desc: StaticDesc, c: seq<nat>, half: nat, opt: int,
                  stat: int)
    requires desc.Valid() && Passing(g, f, f2, l, desc, 0, half) && |c| == 16 && |g.pairs| >= 1
      && |g.Leaves()| <= g.elems
    requires Accounted(c, opt, stat, Low(g, 0), f, l, desc)
    ensures Low(g, 0) == g.Leaves() && Excess(c, desc.maxLength, half, |g.Leaves()|) && c[0] == 0
    ensures forall b :: desc.maxLength < b < 16 ==> c[b] == 0
  {
    hide Sum, Pow2, Weight, Space, Total;
    assert IdsBelow(g.forests[0], g.elems + 0);
    assert Low(g, 0) == g.Leaves();
    CountedSpace(c, g.Leaves(), l, desc.maxLength);
    NoneOf(g.Leaves(), l, 0);
    forall b | desc.maxLength < b < 16 ensures c[b] == 0 { NoneOf(g.Leaves(), l, b); }
  }

  lemma {:induction false} NoneOf(s: set<nat>, l: seq<nat>, b: nat)
    requires forall x :: x in s ==> At(l, x) != b
    ensures Sum(s, Is(l, b)) == 0
    decreases |s|
  {
    if s != {} {
      var x :| x in s;
      SumRemove(s, Is(l, b), x);
      NoneOf(s - {x}, l, b);
    }
  }

  /** All lengths are handed out: as many of each as counted. */
  lemma HandedOut(s: set<nat>, c: seq<nat>, l: seq<nat>, m: nat)
    requires Given(s, c, l, m, 0, 0) && c[0] == 0 && m >= 1
    ensures (forall x :: x in s ==> 1 <= At(l, x) <= m) && Sum(s, Weight(l, m)) == Space(c, m, m)
    ensures forall b :: 0 <= b < |c| ==> c[b] == Sum(s, Is(l, b))
  {
    SumNonNegative(s, Is(l, 0));
    forall x | x in s ensures At(l, x) >= 1 { assert Is(l, 0)(x) <= 0; }
    CountedSpace(c, s, l, m);
  }

  lemma ProgressParts(g: Merges, f: seq<nat>, f2: seq<nat>)
    requires Progress(g, f, f2)
    ensures g.Valid() && RemovedInOrder(g, f2)
  {
  }

  /** When lengths were cut off: repair the counts and hand them out again. */
  method LimitLengths(t: TreeState, fc: array<nat>, dl: array<nat>, maxCode: nat, desc: StaticDesc, overflow: nat,
                      ghost g: Merges, ghost f: seq<nat>, ghost half: nat, ghost opt: int, ghost stat: int)
    requires desc.Valid() && Progress(g, f, fc[..]) && IsMaxCode(maxCode, g.Leaves()) && g.elems == desc.elems
    requires |g.pairs| >= 1 && |g.Leaves()| <= g.elems && g.Roots() == {g.elems + |g.pairs| - 1}
    requires Pass(t, fc, dl, desc, g, f, 0, half, opt, stat) && half > 0 && overflow == 2 * half
    modifies t`optLen, t.blCount, dl
    ensures GoodLengths(g.Leaves(), f, dl[..], desc.maxLength)
    ensures Accounted(t.blCount[..], t.optLen - opt, t.staticLen - stat, g.Leaves(), f, dl[..], desc)
    ensures forall x :: 0 <= x < g.elems && x < dl.Length && x !in g.Leaves() ==> dl[x] == old(dl[x])
  {
    hide Sum, Pow2, Space, Total, Progress, Recorded, Given, Monotone, Upto, IsMaxCode, LowerBound, FreqsAdd,
         RemovedInOrder, Merges.Step, Assigned;
    ProgressParts(g, f, fc[..]);
    CutCounts(g, f, fc[..], dl[..], desc, t.blCount[..], half, t.optLen - opt, t.staticLen - stat);
    RepairCounts(t.blCount, desc.maxLength, overflow, half, |g.Leaves()|);
    SettledStart(g, f, t.blCount[..], dl[..], desc.maxLength);
    ghost var i := SecondPass(t, fc, dl, maxCode, desc, g, f, opt);
    HandedOut(g.Leaves(), t.blCount[..], dl[..], desc.maxLength);
  }

  /** Lengths of all codes; `cut` if some were longer than allowed. */
  method GenBitLen(t: TreeState, fc: array<nat>, dl: array<nat>, maxCode: nat, desc: StaticDesc, ghost g: Merges,
                   ghost f: seq<nat>)
    returns (cut: bool)
    requires desc.Valid() && t.Built(g, f, fc, dl) && IsMaxCode(maxCode, g.Leaves()) && g.elems == desc.elems
    requires t.blCount.Length == 16 && t.blCount != dl && fc != t.blCount && t.blCount != t.heap
    requires |f| == fc.Length && forall x :: 0 <= x < g.elems ==> f[x] == fc[x]
    modifies t`optLen, t`staticLen, t.blCount, dl
    ensures g.Valid() && GoodLengths(g.Leaves(), f, dl[..], desc.maxLength)
    ensures !cut ==> Cheapest(g.Leaves(), f, dl[..])
    ensures Occurring(g, f) ==> Earned(g.Leaves(), f, dl[..]) && (cut ==> TooHigh(g.Leaves(), f, desc.maxLength))
    ensures Accounted(t.blCount[..], t.optLen - old(t.optLen), t.staticLen - old(t.staticLen), g.Leaves(), f, dl[..],
      desc)
    ensures forall x :: 0 <= x < g.elems && x !in g.Leaves() ==> dl[x] == old(dl[x])
  {
    hide Sum, Pow2, Progress, Passing, Recorded, Cheapest, IsMaxCode, LowerBound, FreqsAdd, Accounted, Monotone, Low,
         Merges.Step, Deeper, Earned, TreeHeight, Occurring;
    ghost var opt, stat := t.optLen, t.staticLen;
    ghost var half;
    var overflow;
    overflow, half := FirstPass(t, fc, dl, maxCode, desc, g, f);
    cut := overflow != 0;
    PassedLevels(g, f, fc[..], dl[..], desc, half);
    if !cut {
      CutCounts(g, f, fc[..], dl[..], desc, t.blCount[..], half, t.optLen - opt, t.staticLen - stat);
      UncutLengths(g, f, fc[..], dl[..], desc);
    } else {
      LimitLengths(t, fc, dl, maxCode, desc, overflow, g, f, half, opt, stat);
      CutMeansDeeper(g, f, fc[..], desc.maxLength);
    }
    if Occurring(g, f) {
      LengthsEarned(g, f, fc[..], dl[..]);
      if cut { HighEarned(g, f, fc[..], desc.maxLength); }
    }
  }

  lemma {:induction false} PowLess(a: nat, b: nat)
    requires a < b
    ensures Pow2(a) < Pow2(b)
  {
    if a + 1 < b { PowLess(a, b - 1); }
  }

  /** With only two symbols, both have one-bit codes. */
  lemma TwoCodes(s: set<nat>, f: seq<nat>, l: seq<nat>, m: nat, x: nat)
    requires GoodLengths(s, f, l, m) && |s| <= 2 && x in s && m >= 1
    ensures At(l, x) == 1
  {
    hide Sum;
    var w := Weight(l, m);
    SumRemove(s, w, x);
    if s - {x} == {} {
      NoSum(w);
      if At(l, x) >= 1 { PowLess(m - At(l, x), m); }
    } else {
      var y :| y in s - {x};
      assert |s - {x}| == |s| - 1;
      assert |s - {x} - {y}| == |s| - 2;
      SumRemove(s - {x}, w, y);
      NoSum(w);
      assert s - {x} - {y} == {};
      assert Pow2(m) == 2 * Pow2(m - 1);
      Pow2Mono(m - At(l, y), m - 1);
      if At(l, x) > 1 { PowLess(m - At(l, x), m - 1); }
    }
  }

  /** Leaving the forced symbols out of a sum. */
  lemma {:induction false} WithoutForced(s: set<nat>, extra: set<nat>, w: nat -> int, w0: nat -> int, v: nat -> int)
    requires s !! extra && (forall x :: x in s ==> w(x) == w0(x)) && forall x :: x in extra ==> w(x) == v(x)
    ensures Sum(s + extra, w) == Sum(s, w0) + Sum(extra, v)
    decreases |extra|
  {
    if extra == {} {
      NoSum(v);
      assert s + extra == s;
      SumAgree(s, w, w0);
    } else {
      var x :| x in extra;
      WithoutForced(s, extra - {x}, w, w0, v);
      SumRemove(extra, v, x);
      SumAdd(s + (extra - {x}), w, x);
      assert s + (extra - {x}) + {x} == s + extra;
    }
  }

  lemma {:induction false} SumOnes(s: set<nat>, w: nat -> int)
    requires forall x :: x in s ==> w(x) == 1
    ensures Sum(s, w) == |s|
    decreases |s|
  {
    if s == {} {
      NoSum(w);
    } else {
      var x :| x in s;
      SumRemove(s, w, x);
      SumOnes(s - {x}, w);
    }
  }

  lemma TimesOne(n: nat)
    ensures Times(1, n) == n
  {
  }

  lemma ForcedBill(f0: seq<nat>, f: seq<nat>, l: seq<nat>, desc: StaticDesc, extra: set<nat>, x: nat)
    requires desc.Valid() && desc.elems <= |f0| && Forced(f0, f, desc.elems, extra) && x in extra
    requires GoodLengths(Used(f, desc.elems), f, l, desc.maxLength)
    ensures Bill(f, l, desc)(x) == 1 && StaticBill(f, desc)(x) == At(desc.stree, x)
  {
    hide Times, GoodLengths, Pow2, Used;
    TwoCodes(Used(f, desc.elems), f, l, desc.maxLength, x);
    assert x < 3 && desc.ExtraBits(x) == 0;
    TimesOne(1);
    TimesOne(At(desc.stree, x));
  }

  /** What forcing took off the block sizes beforehand is what the forced symbols add to them. */
  lemma ForcedCancel(f0: seq<nat>, f: seq<nat>, l: seq<nat>, desc: StaticDesc, extra: set<nat>)
    requires desc.Valid() && desc.elems <= |f0| && Forced(f0, f, desc.elems, extra)
      && GoodLengths(Used(f, desc.elems), f, l, desc.maxLength)
    ensures Sum(Used(f, desc.elems), Bill(f, l, desc)) - |extra| == Sum(Used(f0, desc.elems), Bill(f0, l, desc))
    ensures Sum(Used(f, desc.elems), StaticBill(f, desc)) - Sum(extra, AtIn(desc.stree)) ==
      Sum(Used(f0, desc.elems), StaticBill(f0, desc))
  {
    hide Sum, GoodLengths, StaticDesc.Valid, Times, StaticDesc.ExtraBits;
    var s := Used(f0, desc.elems);
    var one: nat -> int := (x: nat) => 1;
    forall x | x in extra ensures Bill(f, l, desc)(x) == 1 && StaticBill(f, desc)(x) == At(desc.stree, x) {
      ForcedBill(f0, f, l, desc, extra, x);
    }
    WithoutForced(s, extra, Bill(f, l, desc), Bill(f0, l, desc), one);
    SumOnes(extra, one);
    WithoutForced(s, extra, StaticBill(f, desc), StaticBill(f0, desc), AtIn(desc.stree));
  }

  /** The lengths in symbol order form a complete code and agree with the counts. */
  lemma CodeReady(s: set<nat>, f: seq<nat>, l: seq<nat>, lens: seq<nat>, c: seq<nat>, m: nat, big: nat)
    requires GoodLengths(s, f, l, m) && LengthsOf(lens, s, l) && m <= big < |c|
    requires forall b :: 0 <= b < |c| ==> c[b] == Sum(s, Is(l, b))
    ensures LensBounded(lens, m) && Kraft(lens, big) == Pow2(big) && c[0] == 0
    ensures forall b :: 1 <= b < |c| ==> c[b] == Count(lens, b)
  {
    hide Sum, Weight, Pow2, Kraft, Count, Is;
    assert LensBounded(lens, m) && LensBounded(lens, big);
    FullAtAnyScale(s, l, m, big);
    LengthsCount(lens, s, l, big, 1);
    NoneOf(s, l, 0);
    forall b | 1 <= b < |c| ensures c[b] == Count(lens, b) { LengthsCount(lens, s, l, big, b); }
  }

  lemma LensInOrder(s: set<nat>, f: seq<nat>, l: seq<nat>, m: nat, maxCode: nat, elems: nat)
    requires GoodLengths(s, f, l, m) && IsMaxCode(maxCode, s) && maxCode < elems <= |l|
    requires forall x :: 0 <= x < elems && x !in s ==> l[x] == 0
    ensures LengthsOf(l[..maxCode + 1], s, l)
  {
    hide Sum, Weight, Monotone;
  }

  /** Build the tree for the frequencies in `fc`: afterwards `fc` holds codes and `dl` lengths, `f` is the
      table of frequencies with the forced ones, and both block sizes count exactly the real symbols. */
  method BuildTree(t: TreeState, fc: array<nat>, dl: array<nat>, desc: StaticDesc)
    returns (maxCode: nat, cut: bool, ghost f: seq<nat>, ghost extra: set<nat>)
    requires t.heap != t.depth && t.heap != fc && t.heap != dl && t.depth != fc && t.depth != dl && fc != dl
    requires t.blCount != t.heap && t.blCount != t.depth && t.blCount != fc && t.blCount != dl && t.blCount.Length == 16
    requires desc.Valid() && 2 * desc.elems <= fc.Length == dl.Length <= t.depth.Length
      && 2 * desc.elems + 1 <= t.heap.Length
    requires Sum(Used(fc[..], desc.elems), FreqOf(fc[..])) <= 0xfffd
    modifies t, t.heap, t.depth, t.blCount, fc, dl
    ensures Forced(old(fc[..]), f, desc.elems, extra) && GoodLengths(Used(f, desc.elems), f, dl[..], desc.maxLength)
    ensures if cut then TooHigh(Used(f, desc.elems), f, desc.maxLength) else Cheapest(Used(f, desc.elems), f, dl[..])
    ensures Earned(Used(f, desc.elems), f, dl[..])
    ensures maxCode < desc.elems && LengthsOf(dl[..maxCode + 1], Used(f, desc.elems), dl[..])
    ensures LensBounded(dl[..maxCode + 1], desc.maxLength) && Kraft(dl[..maxCode + 1], MAX_BITS) == Pow2(MAX_BITS)
    ensures BlockEncoder.TreeCoded(fc[..], dl[..maxCode + 1])
    ensures forall x :: maxCode < x < desc.elems ==> dl[x] == 0
    ensures t.optLen == old(t.optLen) + Sum(Used(old(fc[..]), desc.elems), Bill(old(fc[..]), dl[..], desc))
    ensures t.staticLen == old(t.staticLen) + Sum(Used(old(fc[..]), desc.elems), StaticBill(old(fc[..]), desc))
  {
    hide Sum, Pow2, Weight, Monotone, Kraft, Count, Used, IsMaxCode, Forced, GoodLengths, Cheapest, Bill, StaticBill,
         Value, CodeBits, LengthsOf, Progress, Recorded, FreqOf, AtIn, Is, TooHigh, Earned;
    ghost var f0 := fc[..];
    ghost var g;
    maxCode, g, f, extra := t.MakeTree(fc, dl, desc.elems, desc.stree);
    ghost var s := g.Leaves();
    MaxCodeBelow(f, desc.elems, maxCode);
    AllOccur(g, f, desc.elems);
    cut := GenBitLen(t, fc, dl, maxCode, desc, g, f);
    ghost var l, lens := dl[..], dl[..maxCode + 1];
    ForcedCancel(f0, f, l, desc, extra);
    LensInOrder(s, f, l, desc.maxLength, maxCode, desc.elems);
    CodeReady(s, f, l, lens, t.blCount[..], desc.maxLength, MAX_BITS);
    GenCodes.GenCodes(fc, dl, maxCode, t.blCount, MAX_BITS);
  }

  lemma AllOccur(g: Merges, f: seq<nat>, elems: nat)
    requires |g.forests| > 0 && g.Leaves() == Used(f, elems)
    ensures Occurring(g, f)
  {
  }

  lemma MaxCodeBelow(f: seq<nat>, elems: nat, maxCode: nat)
    requires IsMaxCode(maxCode, Used(f, elems)) && elems <= |f|
    ensures maxCode < elems && (forall x :: 0 <= x < elems && x !in Used(f, elems) ==> f[x] == 0)
    ensures forall x :: maxCode < x < elems ==> f[x] == 0 && x !in Used(f, elems)
  {
  }
}
