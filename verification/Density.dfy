/** How many bits the tokens of a block take on average, and before any one of them: less than the buffer allows, if it
    is large for the window, and the trees are cheapest codes. */
module Density {
  import opened Bits
  import opened Canonical
  import opened GenCodes
  import opened SetSum
  import opened Huffman
  import opened TreeBuild
  import opened TreeDepth
  import opened BitLengths
  import opened BuildTree
  import opened Dyadic
  import opened CodeLengths
  import opened Header
  import opened Tokens
  import opened Blocks
  import opened BlockEncoder
  import opened BlockSize
  import opened BlockTrees
  import opened Inflated
  import opened Stream
  import opened StaticTrees
  import opened FlushBlock
  import opened Overlay

  // The trees of a block with few tokens are cheapest codes.

  function ExtraOf(f: seq<nat>, desc: StaticDesc): nat -> int { (x: nat) => Times(At(f, x), desc.ExtraBits(x)) }

  /** Code bits and extra bits. */
  lemma PricedParts(f: seq<nat>, l: seq<nat>, desc: StaticDesc)
    ensures Priced(f, l, desc) == Cost(Used(f, desc.elems), f, l) + Sum(Used(f, desc.elems), ExtraOf(f, desc))
  {
    hide StaticDesc.ExtraBits, Sum, Used;
    UsedPriced(f, l, desc);
    forall x | x in Used(f, desc.elems) ensures Bill(f, l, desc)(x) == Price(f, l)(x) + ExtraOf(f, desc)(x) {
      Distrib(At(l, x), desc.ExtraBits(x), At(f, x));
    }
    SumOfTwo(Used(f, desc.elems), Price(f, l), ExtraOf(f, desc), Bill(f, l, desc));
  }

  lemma {:induction false} SumLess(s: set<nat>, g: nat -> int, h: nat -> int)
    requires forall x :: x in s ==> g(x) <= h(x)
    ensures Sum(s, g) <= Sum(s, h)
    decreases |s|
  {
    if s != {} {
      var x :| x in s;
      SumRemove(s, g, x);
      SumRemove(s, h, x);
      SumLess(s - {x}, g, h);
    }
  }

  /** No other code for the symbols that occur takes fewer bits. */
  lemma ChosenCheap(f0: seq<nat>, l: seq<nat>, desc: StaticDesc, l2: seq<nat>, k: nat)
    requires Chosen(f0, l, desc) && desc.maxLength >= 1 && Sum(All(desc.elems), FreqOf(f0)) < Fib(desc.maxLength + 3)
    requires Feasible(Used(f0, desc.elems), l2, k) && forall x :: x in Used(f0, desc.elems) ==> At(l2, x) >= 1
    ensures Priced(f0, l, desc) <= Priced(f0, l2, desc)
  {
    hide Sum, Fib, All, Used, Feasible, FreqOf, Fitting, Priced;
    var f, extra :| Forced(f0, f, desc.elems, extra) && Fitting(f, l, desc);
    PricedParts(f0, l, desc);
    PricedParts(f0, l2, desc);
    if extra == {} {
      assert f == f0;
      FittingCheap(f0, l, desc, l2, k);
    } else {
      ForcedCheap(f0, f, extra, l, desc, l2);
    }
  }

  lemma FittingCheap(f: seq<nat>, l: seq<nat>, desc: StaticDesc, l2: seq<nat>, k: nat)
    requires Fitting(f, l, desc) && Sum(All(desc.elems), FreqOf(f)) < Fib(desc.maxLength + 3)
    requires Feasible(Used(f, desc.elems), l2, k)
    ensures Cost(Used(f, desc.elems), f, l) <= Cost(Used(f, desc.elems), f, l2)
  {
    hide Sum, Fib, GoodLengths, Cheapest, Deeper, All, Used, Earned, Feasible, FreqOf;
    UsedPriced(f, [], desc);
    CheapestMeans(Used(f, desc.elems), f, l, l2, k);
  }

  lemma ForcedCheap(f0: seq<nat>, f: seq<nat>, extra: set<nat>, l: seq<nat>, desc: StaticDesc, l2: seq<nat>)
    requires Forced(f0, f, desc.elems, extra) && Fitting(f, l, desc) && extra != {} && desc.maxLength >= 1
    requires forall x :: x in Used(f0, desc.elems) ==> At(l2, x) >= 1
    ensures Cost(Used(f0, desc.elems), f0, l) <= Cost(Used(f0, desc.elems), f0, l2)
  {
    hide Sum, GoodLengths, Cheapest, TooHigh, Used, Earned, Price;
    var s := Used(f0, desc.elems);
    forall x | x in s ensures Price(f0, l)(x) <= Price(f0, l2)(x) {
      TwoCodes(Used(f, desc.elems), f, l, desc.maxLength, x);
      PriceMono(f0, l, l2, x);
    }
    SumLess(s, Price(f0, l), Price(f0, l2));
  }

  lemma CheapestMeans(s: set<nat>, f: seq<nat>, l: seq<nat>, l2: seq<nat>, k: nat)
    requires Cheapest(s, f, l) && Feasible(s, l2, k)
    ensures Cost(s, f, l) <= Cost(s, f, l2)
  {
  }

  lemma PriceMono(f: seq<nat>, l: seq<nat>, l2: seq<nat>, x: nat)
    requires At(l, x) <= At(l2, x)
    ensures Price(f, l)(x) <= Price(f, l2)(x)
  {
    MulMono(At(l, x), At(l2, x), At(f, x));
  }

  // A code mixed from two: each symbol has the shorter of its codes, with one more bit.

  function Mixed(l: seq<nat>, ref: seq<nat>, n: nat): (mix: seq<nat>)
    ensures |mix| == n && forall x: nat :: x < n ==>
      && 1 <= mix[x] <= At(l, x) + 1 && (At(ref, x) > 0 ==> mix[x] <= At(ref, x) + 1)
      && (mix[x] == At(l, x) + 1 || (At(ref, x) > 0 && mix[x] == At(ref, x) + 1))
  {
    seq(n, x requires 0 <= x < n => 1 + if 0 < At(ref, x) < At(l, x) then At(ref, x) else At(l, x))
  }

  /** Code space of the lengths that are not zero. */
  function Room(n: nat): nat { if 0 < n <= 15 then Pow2(15 - n) else 0 }

  function Spot(ref: seq<nat>): nat -> int { (x: nat) => Room(At(ref, x)) }

  lemma {:induction false} SumPart(s: set<nat>, all: set<nat>, g: nat -> int)
    requires s <= all && forall x :: x in all ==> g(x) >= 0
    ensures Sum(s, g) <= Sum(all, g)
    decreases |all - s|
  {
    if all - s == {} {
      assert all == s;
    } else {
      var x :| x in all - s;
      SumRemove(all, g, x);
      assert all - {x} - s == all - s - {x};
      SumPart(s, all - {x}, g);
    }
  }

  lemma WeightIs(l: seq<nat>, k: nat, x: nat)
    ensures Weight(l, k)(x) == if At(l, x) <= k then Pow2(k - At(l, x)) else 0
  {
  }

  lemma MixedSpace(l: seq<nat>, ref: seq<nat>, n: nat, x: nat)
    requires x < n && At(l, x) <= 15 && At(ref, x) <= 15
    ensures Weight(Mixed(l, ref, n), 16)(x) <= Room(At(ref, x)) + Weight(l, 15)(x)
  {
    hide Pow2, Mixed, Weight;
    var mix := Mixed(l, ref, n);
    assert At(mix, x) == mix[x];
    WeightIs(mix, 16, x);
    WeightIs(l, 15, x);
  }

  lemma MixFits(s: set<nat>, l: seq<nat>, ref: seq<nat>, n: nat)
    requires (forall x :: x in s ==> x < n && At(l, x) <= 15) && Sum(s, Weight(l, 15)) <= Pow2(15)
    requires (forall x: nat :: x < n ==> At(ref, x) <= 15) && Sum(All(n), Spot(ref)) <= Pow2(15)
    ensures Feasible(s, Mixed(l, ref, n), 16)
  {
    hide Sum, Pow2, All, Mixed, Weight, Room;
    var mix := Mixed(l, ref, n);
    var both: nat -> int := (x: nat) => Room(At(ref, x)) + Weight(l, 15)(x);
    assert Pow2(16) == 2 * Pow2(15) by { Pow2Values(); }
    forall x | x in s ensures Weight(mix, 16)(x) <= both(x) { MixedSpace(l, ref, n, x); }
    SumLess(s, Weight(mix, 16), both);
    SumOfTwo(s, Spot(ref), Weight(l, 15), both);
    SumPart(s, All(n), Spot(ref));
  }

  /** Lengths that a code has take no more space than there is. */
  lemma KraftSum(s: set<nat>, l: seq<nat>)
    requires LensBounded(l, 15) && Kraft(l, 15) <= Pow2(15) && forall x :: x in s ==> x < |l| && l[x] > 0
    ensures Sum(s, Weight(l, 15)) <= Pow2(15)
  {
    hide Sum, Pow2, Kraft;
    var all := set x: nat | x < |l| && l[x] > 0;
    LengthsCount(l, all, l, 15, 1);
    SumPart(s, all, Weight(l, 15));
  }

  // Two codes for comparison. With them, a match takes eight bits for its length, one more if its symbol is `v` or the
  // last, and as many for its distance as the window has.

  function LRef(v: nat, x: nat): nat
  {
    if x < 257 || x > 285 then 0 else if x == 285 then 4 else 8 - ExtraLength(x - 257) + if x == v then 1 else 0
  }

  function DRef(k: nat, x: nat): nat
  {
    if x < 30 && x < 2 * k && ExtraDist(x) <= k then k - ExtraDist(x) else 0
  }

  function LRefs(v: nat): (l: seq<nat>)
    ensures |l| == 286 && forall x: nat :: At(l, x) == LRef(v, x)
  {
    seq(286, x requires 0 <= x < 286 => LRef(v, x))
  }

  function DRefs(k: nat): (l: seq<nat>)
    ensures |l| == 30 && forall x: nat :: At(l, x) == DRef(k, x)
  {
    seq(30, x requires 0 <= x < 30 => DRef(k, x))
  }

  /** Extra bits reach from each base to the next. */
  function DUpTo(n: nat): nat { if n < 30 then BaseDist(n) else 0x8000 }

  function LUpTo(n: nat): nat { if n < 28 then BaseLength(n) else 256 }

  lemma SumNext(n: nat, g: nat -> int)
    ensures Sum(All(n + 1), g) == Sum(All(n), g) + g(n)
  {
    hide Sum;
    SumAdd(All(n), g, n);
  }

  lemma LReach(c: nat)
    requires c < 28
    ensures LUpTo(c) + Pow2(ExtraLength(c)) == LUpTo(c + 1)
  {
    hide BaseLength, ExtraLength;
    LengthReach(c);
  }

  lemma DReach(c: nat)
    requires c < 30
    ensures DUpTo(c) + Pow2(ExtraDist(c)) == DUpTo(c + 1)
  {
    hide BaseDist, ExtraDist;
    DistReach(c);
  }

  lemma RoomTimes(k: nat, e: nat)
    requires e < k <= 15
    ensures Room(k - e) == Pow2(e) * Pow2(15 - k)
  {
    Pow2Add(e, 15 - k);
    assert e + (15 - k) == 15 - (k - e);
  }

  lemma {:induction false} DRefSum(k: nat, n: nat)
    requires 9 <= k <= 15 && n <= 30
    ensures n <= 2 * k ==> Sum(All(n), Spot(DRefs(k))) == DUpTo(n) * Pow2(15 - k)
    ensures n > 2 * k ==> Sum(All(n), Spot(DRefs(k))) == DUpTo(2 * k) * Pow2(15 - k)
  {
    hide Sum, Pow2, DUpTo, Room, DRefs, DRef, ExtraDist, All;
    if n == 0 {
      NothingYet(Spot(DRefs(k)));
    } else {
      DRefSum(k, n - 1);
      SumNext(n - 1, Spot(DRefs(k)));
      DRefAt(k, n - 1);
      if n <= 2 * k {
        DReach(n - 1);
        RoomTimes(k, ExtraDist(n - 1));
        Distrib(DUpTo(n - 1), Pow2(ExtraDist(n - 1)), Pow2(15 - k));
      }
    }
  }

  lemma NothingYet(g: nat -> int)
    ensures Sum(All(0), g) == 0 && DUpTo(0) == 0 && LUpTo(0) == 0
  {
  }

  lemma DRefAt(k: nat, x: nat)
    requires 9 <= k <= 15 && x < 30
    ensures if x < 2 * k then ExtraDist(x) < k && DRef(k, x) == k - ExtraDist(x) else DRef(k, x) == 0 && Room(0) == 0
  {
  }

  lemma DRefFits(k: nat)
    requires 9 <= k <= 15
    ensures Sum(All(30), Spot(DRefs(k))) <= Pow2(15) && forall x: nat :: x < 30 ==> DRef(k, x) <= 15
  {
    hide Sum, Pow2, BaseDist;
    DRefSum(k, 30);
    DWhole(k);
    Pow2Add(k, 15 - k);
    assert k + (15 - k) == 15;
  }

  lemma DWhole(k: nat)
    requires 9 <= k <= 15
    ensures DUpTo(2 * k) == Pow2(k)
  {
    SmallPowers();
    Pow2Values();
  }

  /** Without the exceptions. */
  lemma {:induction false} LRefSum(n: nat)
    requires n <= 28
    ensures Sum(All(257 + n), Spot(LRefs(0))) == LUpTo(n) * Pow2(7)
  {
    hide Sum, Pow2, LUpTo, Room, LRefs, LRef, ExtraLength, All;
    if n == 0 {
      NoLengthYet(257);
      NothingYet(Spot(LRefs(0)));
    } else {
      var c := n - 1;
      LRefSum(c);
      SumNext(257 + c, Spot(LRefs(0)));
      LReach(c);
      FewExtraBits(c, 0);
      AllRefOf(c);
      RoomTimes(8, ExtraLength(c));
      Distrib(LUpTo(c), Pow2(ExtraLength(c)), Pow2(7));
    }
  }

  lemma {:induction false} NoLengthYet(n: nat)
    requires n <= 257
    ensures Sum(All(n), Spot(LRefs(0))) == 0
  {
    hide Sum, Pow2;
    if n == 0 {
      NothingYet(Spot(LRefs(0)));
    } else {
      NoLengthYet(n - 1);
      SumNext(n - 1, Spot(LRefs(0)));
      assert LRef(0, n - 1) == 0;
    }
  }

  lemma LRefFits(v: nat)
    requires v == 283 || v == 284
    ensures Sum(All(286), Spot(LRefs(v))) <= Pow2(15) && forall x: nat :: x < 286 ==> LRef(v, x) <= 15
  {
    hide Sum, Pow2;
    var g, h := Spot(LRefs(0)), Spot(LRefs(v));
    LRefSum(28);
    assert 257 + 28 == 285;
    SumRemove(All(285), g, v);
    SumRemove(All(285), h, v);
    SumAgree(All(285) - {v}, g, h);
    SumNext(285, h);
    Rooms(v);
  }

  lemma Rooms(v: nat)
    requires v == 283 || v == 284
    ensures Room(LRef(0, v)) == 4096 && Room(LRef(v, v)) == 2048 && Room(LRef(v, 285)) == 2048
    ensures LUpTo(28) * Pow2(7) == 32768 == Pow2(15)
  {
    SmallPowers();
    Pow2Values();
  }

  // The tokens of a block, with a mixed code.

  function MixedCodes(c: Codes, v: nat, k: nat): Codes
  {
    Codes(Mixed(c.llens, LRefs(v), 286), Mixed(c.dlens, DRefs(k), 30), 15)
  }

  lemma DistWithin(dist: nat, k: nat)
    requires 9 <= k <= 15 && 1 <= dist <= Pow2(k)
    ensures dist <= 0x8000 && DCode(dist - 1) < 2 * k
  {
    hide Pow2, BaseDist, ExtraDist, DCode;
    Pow2Mono(k, 15);
    Pow2Values();
    DistCodeFits(dist - 1);
    DWhole(k);
    var s := DCode(dist - 1);
    if s > 2 * k { DistsApart(2 * k, s); }
  }

  /** A token takes at most two bits more, and not more than this. */
  lemma MixedToken(c: Codes, v: nat, k: nat, t: Token)
    requires 9 <= k <= 15 && CanSendToken(c, t) && LensBounded(c.llens, 15) && (t.Match? ==> t.dist <= Pow2(k))
    ensures var mix := MixedCodes(c, v, k);
      && CanSendToken(mix, t) && |TokenBits(mix, t)| <= |TokenBits(c, t)| + 2
      && |TokenBits(mix, t)| <= k + 10 + if LSym(t) == v then 1 else 0
  {
    hide TokenBits, Mixed, LRefs, DRefs, LengthCode, DCode, Pow2, StaticDesc.ExtraBits, MixedCodes, LSym, DSym, LRef,
         DRef, ExtraDist, CanSendToken;
    var mix := MixedCodes(c, v, k);
    MixedCan(c, v, k, t);
    TokenSize(c, t);
    TokenSize(mix, t);
    MixedLength(c, v, k, LSym(t));
    if t.Match? {
      MatchSyms(t);
      DistWithin(t.dist, k);
      MixedDist(c, v, k, DSym(t));
    } else {
      LitSym(t);
    }
  }

  lemma MixedCan(c: Codes, v: nat, k: nat, t: Token)
    requires CanSendToken(c, t)
    ensures CanSendToken(MixedCodes(c, v, k), t) && TokenOk(t)
    ensures HasCode(c.llens, LSym(t)) && (t.Match? ==> HasCode(c.dlens, DSym(t)))
  {
    hide Mixed, LRefs, DRefs, LengthCode, DCode;
  }

  lemma MatchSyms(t: Token)
    requires TokenOk(t) && t.Match?
    ensures 257 <= LSym(t) < 286 && DSym(t) == DCode(t.dist - 1)
  {
    hide LengthCode, DCode;
  }

  lemma LitSym(t: Token)
    requires t.Literal?
    ensures LSym(t) < 256
  {
  }

  /** The length symbol, with its extra bits. */
  lemma MixedLength(c: Codes, v: nat, k: nat, x: nat)
    requires HasCode(c.llens, x) && x < 286 && LensBounded(c.llens, 15)
    ensures var l := MixedCodes(c, v, k).llens;
      && At(l, x) <= At(c.llens, x) + 1 && (x < 257 ==> At(l, x) + LDesc().ExtraBits(x) <= 16)
      && (x >= 257 ==> At(l, x) + LDesc().ExtraBits(x) <= 9 + if x == v then 1 else 0)
  {
    hide Mixed, LRefs, DRefs, LRef, StaticDesc.ExtraBits;
    var l := MixedCodes(c, v, k).llens;
    assert At(l, x) == l[x];
    if x < 257 { LitExtra(x); } else { LExtras(x, v); }
  }

  lemma MixedDist(c: Codes, v: nat, k: nat, x: nat)
    requires 9 <= k <= 15 && HasCode(c.dlens, x) && x < 30 && x < 2 * k
    ensures var l := MixedCodes(c, v, k).dlens;
      At(l, x) <= At(c.dlens, x) + 1 && At(l, x) + DDesc().ExtraBits(x) <= k + 1
  {
    hide Mixed, LRefs, DRefs, DRef, StaticDesc.ExtraBits, ExtraDist;
    var l := MixedCodes(c, v, k).dlens;
    assert At(l, x) == l[x];
    DRefAt(k, x);
    DExtras(x);
  }

  lemma LitExtra(x: nat)
    requires x < 257
    ensures LDesc().ExtraBits(x) == 0
  {
  }

  lemma LExtras(x: nat, v: nat)
    requires 257 <= x < 286
    ensures LRef(v, x) > 0 && LRef(v, x) + LDesc().ExtraBits(x) <= 8 + if x == v then 1 else 0
  {
  }

  lemma DExtras(x: nat)
    requires x < 30
    ensures DDesc().ExtraBits(x) == ExtraDist(x)
  {
  }

  ghost predicate SendsNear(c: Codes, tokens: seq<Token>, k: nat)
  {
    && 9 <= k <= 15 && LensBounded(c.llens, 15) && CanSendAll(c, tokens)
    && forall i :: 0 <= i < |tokens| && tokens[i].Match? ==> tokens[i].dist <= Pow2(k)
  }

  lemma NearRest(c: Codes, tokens: seq<Token>, k: nat, n: nat)
    requires SendsNear(c, tokens, k) && n < |tokens|
    ensures SendsNear(c, tokens[..n], k) && CanSendToken(c, tokens[n]) && 9 <= k <= 15 && LensBounded(c.llens, 15)
      && (tokens[n].Match? ==> tokens[n].dist <= Pow2(k))
  {
    hide CanSendToken, Pow2;
  }

  /** All of them together. */
  lemma {:induction false} MixedTokens(c: Codes, v: nat, k: nat, tokens: seq<Token>)
    requires SendsNear(c, tokens, k)
    ensures var mix := MixedCodes(c, v, k);
      && |TokensBits(mix, tokens)| <= |TokensBits(c, tokens)| + 2 * |tokens|
      && |TokensBits(mix, tokens)| <= Times(|tokens|, k + 10) + LUses(tokens, v)
    decreases tokens
  {
    hide TokenBits, MixedCodes, CanSendToken, LSym, Pow2, LensBounded, HasCode, SendsNear, Times;
    if tokens != [] {
      var n := |tokens| - 1;
      NearRest(c, tokens, k, n);
      MixedTokens(c, v, k, tokens[..n]);
      MixedToken(c, v, k, tokens[n]);
      BlockSize.OneMore(n, k + 10);
    }
  }

  /** If the codes cost little more than every other code does, the first `i` tokens do, too. */
  lemma PrefixBound(c: Codes, v: nat, k: nat, tokens: seq<Token>, i: nat, slack: nat)
    requires SendsNear(c, tokens, k) && i <= |tokens|
    requires |BlockBits(c, tokens)| <= |BlockBits(MixedCodes(c, v, k), tokens)| + slack
    ensures |TokensBits(c, tokens[..i])| <= (k + 8) * i + LUses(tokens[..i], v) + 2 * |tokens| + 1 + slack
  {
    hide TokensBits, MixedCodes, CanSendToken, LUses, Pow2, Times;
    var mix, a, b := MixedCodes(c, v, k), tokens[..i], tokens[i..];
    assert tokens == a + b;
    BitsConcat(c, a, b);
    BitsConcat(mix, a, b);
    assert SendsNear(c, a, k) && SendsNear(c, b, k);
    MixedTokens(c, v, k, a);
    MixedTokens(c, v, k, b);
    EndMixed(c, v, k);
    TwoLess(k, i);
  }

  lemma TwoLess(k: nat, i: nat)
    ensures Times(i, k + 10) == (k + 8) * i + 2 * i
  {
    Distrib(k + 8, 2, i);
  }

  lemma EndMixed(c: Codes, v: nat, k: nat)
    requires HasCode(c.llens, END_BLOCK)
    ensures |SymbolBits(MixedCodes(c, v, k).llens, END_BLOCK)| <= |SymbolBits(c.llens, END_BLOCK)| + 1
  {
  }

  /** One of two symbols takes at most half of the tokens. */
  lemma {:induction false} TwoSymbols(tokens: seq<Token>)
    ensures LUses(tokens, 283) + LUses(tokens, 284) <= |tokens|
    decreases tokens
  {
    hide LSym;
    if tokens != [] { TwoSymbols(tokens[..|tokens| - 1]); }
  }

  // The codes of a block cost no more than the mixed ones.

  lemma {:induction false} LOccurs(tokens: seq<Token>, x: nat) returns (i: nat)
    requires LUses(tokens, x) > 0
    ensures i < |tokens| && LSym(tokens[i]) == x
    decreases tokens
  {
    hide LSym;
    var n := |tokens| - 1;
    if LSym(tokens[n]) == x { i := n; } else { i := LOccurs(tokens[..n], x); }
  }

  lemma {:induction false} DOccurs(tokens: seq<Token>, x: nat) returns (i: nat)
    requires DUses(tokens, x) > 0
    ensures i < |tokens| && tokens[i].Match? && DSym(tokens[i]) == x
    decreases tokens
  {
    hide DSym;
    var n := |tokens| - 1;
    if tokens[n].Match? && DSym(tokens[n]) == x { i := n; } else { i := DOccurs(tokens[..n], x); }
  }

  /** Symbols that occur have a code. */
  lemma UsedCoded(c: Codes, tokens: seq<Token>, fl: seq<nat>, fd: seq<nat>)
    requires Frequencies(fl, fd, tokens) && CanSendAll(c, tokens)
    ensures forall x :: x in Used(fl, 286) ==> HasCode(c.llens, x)
    ensures forall x :: x in Used(fd, 30) ==> HasCode(c.dlens, x)
  {
    hide LUses, DUses, LengthCode, DCode;
    forall x | x in Used(fl, 286) ensures HasCode(c.llens, x) {
      if x != END_BLOCK {
        var i := LOccurs(tokens, x);
        assert CanSendToken(c, tokens[i]);
      }
    }
    forall x | x in Used(fd, 30) ensures HasCode(c.dlens, x) {
      var i := DOccurs(tokens, x);
      assert CanSendToken(c, tokens[i]);
    }
  }

  /** A code for comparison. */
  ghost predicate Comparable(c: Codes)
  {
    && LensBounded(c.llens, 15) && Kraft(c.llens, 15) <= Pow2(15)
    && LensBounded(c.dlens, 15) && Kraft(c.dlens, 15) <= Pow2(15)
  }

  lemma MixedFits(c: Codes, v: nat, k: nat, tokens: seq<Token>, fl: seq<nat>, fd: seq<nat>)
    requires Frequencies(fl, fd, tokens) && SendsNear(c, tokens, k) && Comparable(c) && (v == 283 || v == 284)
    ensures Feasible(Used(fl, 286), Mixed(c.llens, LRefs(v), 286), 16)
    ensures Feasible(Used(fd, 30), Mixed(c.dlens, DRefs(k), 30), 16)
  {
    hide Frequencies, CanSendToken, Kraft, Pow2, Sum, Mixed, LRefs, DRefs, Weight, Feasible, All;
    UsedCoded(c, tokens, fl, fd);
    KraftSum(Used(fl, 286), c.llens);
    KraftSum(Used(fd, 30), c.dlens);
    LRefFits(v);
    DRefFits(k);
    MixFits(Used(fl, 286), c.llens, LRefs(v), 286);
    MixFits(Used(fd, 30), c.dlens, DRefs(k), 30);
  }

  lemma MixedSends(c: Codes, v: nat, k: nat, tokens: seq<Token>)
    requires CanSendAll(c, tokens)
    ensures CanSendAll(MixedCodes(c, v, k), tokens)
  {
    hide Mixed, LRefs, DRefs, LengthCode, DCode;
  }

  lemma ChosenCodes(f0: seq<nat>, l: seq<nat>, desc: StaticDesc)
    requires Chosen(f0, l, desc)
    ensures forall x :: x in Used(f0, desc.elems) ==> At(l, x) >= 1
  {
    hide Sum, Cheapest, Deeper, Earned, Used;
    var f, extra :| Forced(f0, f, desc.elems, extra) && Fitting(f, l, desc);
    assert Used(f0, desc.elems) <= Used(f, desc.elems);
  }

  /** The trees built for few enough tokens take no more bits than a code mixed from any other. */
  lemma OwnLess(b: Trees, c: Codes, v: nat, k: nat, tokens: seq<Token>)
    requires TreesFor(b, tokens) && SendsNear(c, tokens, k) && Comparable(c) && (v == 283 || v == 284)
    requires |tokens| < 2583 && forall i :: 0 <= i < |tokens| ==> TokenOk(tokens[i])
    ensures CanSendAll(b.c, tokens) && |BlockBits(b.c, tokens)| <= |BlockBits(MixedCodes(c, v, k), tokens)|
  {
    hide Kraft, Pow2, Chosen, Sum, FreqOf, All, Frequencies, TokenOk, CanSend, TreeItems, Mixed, LRefs, DRefs,
         BlockBits, Priced, CanSendAll, Comparable, Feasible, Fib, Used, LensBounded;
    var fl, fd :| Frequencies(fl, fd, tokens) && Chosen(fl, b.c.llens, LDesc()) && Chosen(fd, b.c.dlens, DDesc());
    var mix := MixedCodes(c, v, k);
    DescSizes();
    FixedSize(tokens, fl, fd);
    BigFib();
    MixedFits(c, v, k, tokens, fl, fd);
    MixedPositive(c, v, k, fl, fd);
    ChosenCheap(fl, b.c.llens, LDesc(), mix.llens, 16);
    ChosenCheap(fd, b.c.dlens, DDesc(), mix.dlens, 16);
    MixedSends(c, v, k, tokens);
    TokensSize(mix, tokens, fl, fd);
    OwnSends(b, tokens, fl, fd);
    TokensSize(b.c, tokens, fl, fd);
  }

  lemma BigFib()
    ensures Fib(18) == 2584 && LDesc().maxLength == 15 == DDesc().maxLength
  {
    FibValues();
  }

  lemma MixedPositive(c: Codes, v: nat, k: nat, fl: seq<nat>, fd: seq<nat>)
    ensures forall x :: x in Used(fl, 286) ==> At(MixedCodes(c, v, k).llens, x) >= 1
    ensures forall x :: x in Used(fd, 30) ==> At(MixedCodes(c, v, k).dlens, x) >= 1
  {
    hide Mixed, LRefs, DRefs;
  }

  lemma OwnSends(b: Trees, tokens: seq<Token>, fl: seq<nat>, fd: seq<nat>)
    requires Frequencies(fl, fd, tokens) && Chosen(fl, b.c.llens, LDesc()) && Chosen(fd, b.c.dlens, DDesc())
    requires forall i :: 0 <= i < |tokens| ==> TokenOk(tokens[i])
    ensures CanSendAll(b.c, tokens)
  {
    hide Chosen, TokenOk, CanSendAll, LUses, DUses;
    DescSizes();
    ChosenCodes(fl, b.c.llens, LDesc());
    ChosenCodes(fd, b.c.dlens, DDesc());
    forall x: nat | x < 286 && At(fl, x) > 0 ensures HasCode(b.c.llens, x) { assert x in Used(fl, 286); }
    forall x: nat | x < 30 && At(fd, x) > 0 ensures HasCode(b.c.dlens, x) { assert x in Used(fd, 30); }
    TokensCovered(b.c, tokens, fl, fd);
  }

  // The header.

  /** An item takes at most seven bits for each length that it stands for. */
  lemma {:induction false} ItemsTake(blens: seq<nat>, have: seq<nat>, items: seq<Item>, limit: nat)
    requires |blens| == 19 && (forall s :: 0 <= s < 19 ==> blens[s] <= 7) && CodeLengths.AllOk(items)
    requires ApplyAll(have, items, limit).Lens?
    ensures |EncodeItems(blens, items)| <= 7 * (|ApplyAll(have, items, limit).have| - |have|)
    decreases items
  {
    hide EncodeItems, CodeBits, ToBits, ItemBits;
    if items == [] {
      EncodeNone(blens);
    } else {
      EncodeHead(blens, items);
      ItemTakes(blens, have, items[0], limit);
      ItemsTake(blens, Apply(have, items[0], limit).have, items[1..], limit);
    }
  }

  lemma ItemTakes(blens: seq<nat>, have: seq<nat>, it: Item, limit: nat)
    requires |blens| == 19 && (forall s :: 0 <= s < 19 ==> blens[s] <= 7) && ItemOk(it) && Apply(have, it, limit).Lens?
    ensures |ItemBits(blens, it)| <= 7 * (|Apply(have, it, limit).have| - |have|)
  {
    hide CodeBits, ToBits;
  }

  lemma HeaderTakes(b: Trees, tokens: seq<Token>)
    requires TreesFor(b, tokens)
    ensures b.Shaped() && |HeaderBits(b.c.llens, b.c.dlens, b.blens, b.blcodes)| <= 2283
  {
    hide Kraft, Pow2, TreeItems, EncodeItems, OrderBits, ToBits, BuiltFor, CanSend, ApplyAll;
    TreesShaped(b, tokens);
    var l, d := b.c.llens, b.c.dlens;
    TreesRoundTrip(l, d);
    ItemsAreOk(l, d);
    ItemsTake(b.blens, [], TreeItems(l) + TreeItems(d), |l| + |d|);
    OrderSize(b.blens, b.blcodes);
  }

  // Together.

  /** The buffer is large enough for so many tokens and this window. */
  predicate Roomy(n: nat, k: nat, size: nat)
  {
    9 <= k <= 15 && n < 2583 && 2301 + (k - 8) * n + n / 2 + 2 * n <= 8 * size + 16
  }

  /** Then no token is overwritten before it is sent, if the codes cost no more than `slack` bits more than the mixed
      ones. */
  lemma RoomyUnharmed(c: Codes, k: nat, tokens: seq<Token>, head: int, slack: nat, size: nat)
    requires SendsNear(c, tokens, k) && Roomy(|tokens|, k, size) && head + slack <= 2300
    requires |BlockBits(c, tokens)| <= |BlockBits(MixedCodes(c, 283, k), tokens)| + slack
    requires |BlockBits(c, tokens)| <= |BlockBits(MixedCodes(c, 284, k), tokens)| + slack
    ensures Unharmed(c, tokens, head, size)
  {
    hide TokensBits, MixedCodes, LUses, SendsNear, BlockBits;
    forall i | 0 <= i < |tokens| ensures Early(c, tokens, head, size, i) {
      PrefixBound(c, 283, k, tokens, i, slack);
      PrefixBound(c, 284, k, tokens, i, slack);
      TwoSymbols(tokens[..i]);
      Halves(k, i, |tokens|);
    }
  }

  lemma Halves(k: nat, i: nat, n: nat)
    requires i < n && 9 <= k
    ensures (k + 8) * i == (k - 8) * i + 16 * i && (k - 8) * i <= (k - 8) * n && i / 2 <= n / 2
  {
    Distrib(k - 8, 16, i);
    MulMono(i, n, k - 8);
  }

  /** Such a block gets through, with its own trees and with the static ones. */
  lemma RoomyThrough(x: Sending, k: nat, size: nat)
    requires WellSent(x, false) && Near(x.tokens, Pow2(k)) && Roomy(|x.tokens|, k, size)
    ensures GotThrough(x, size)
  {
    hide TreesFor, TokenOk, Unharmed, HeaderBits, BlockBits, MixedCodes, SendsNear, Comparable, FixedCodes, Pow2, Near,
         Whole, CanSendAll;
    var b, ts := x.built, x.tokens;
    HeaderTakes(b, ts);
    StaticComparable(ts, k);
    OwnLess(b, FixedCodes(MAX_BITS), 283, k, ts);
    OwnLess(b, FixedCodes(MAX_BITS), 284, k, ts);
    OwnComparable(b, ts, k);
    OwnLess(b, b.c, 283, k, ts);
    OwnLess(b, b.c, 284, k, ts);
    if x.content.Coded? && x.own == [] {
      StaticNoMore(x);
      RoomyUnharmed(FixedCodes(MAX_BITS), k, ts, x.held + 3, 2290, size);
    } else if x.content.Coded? {
      RoomyUnharmed(b.c, k, ts, x.held + 3 + |HeaderBits(b.c.llens, b.c.dlens, b.blens, b.blcodes)|, 0, size);
    }
  }

  /** The static trees are used only if they take few bits more. */
  lemma StaticNoMore(x: Sending)
    requires WellSent(x, false) && x.content.Coded? && x.own == []
    ensures StaticSize(x.tokens) <= OwnSize(x.built, x.tokens) + 7
  {
    hide TreesFor, TokenOk, OwnSize, StaticSize;
  }

  lemma StaticComparable(tokens: seq<Token>, k: nat)
    requires (forall i :: 0 <= i < |tokens| ==> TokenOk(tokens[i])) && Near(tokens, Pow2(k)) && 9 <= k <= 15
    ensures Comparable(FixedCodes(MAX_BITS)) && SendsNear(FixedCodes(MAX_BITS), tokens, k)
  {
    hide Kraft, Pow2, CanSendToken;
    StaticComplete(MAX_BITS);
    FixedSendsAll(tokens, MAX_BITS);
  }

  lemma OwnComparable(b: Trees, tokens: seq<Token>, k: nat)
    requires TreesFor(b, tokens) && CanSendAll(b.c, tokens) && Near(tokens, Pow2(k)) && 9 <= k <= 15
    ensures Comparable(b.c) && SendsNear(b.c, tokens, k)
  {
    hide Kraft, Pow2, CanSendToken, BuiltFor, TreeItems, CanSend;
  }

  // The average over a block.

  /** A code in which matches take 24 bits and literals ten. */
  function AllRef(x: nat): nat
  {
    if x < 256 then 10 else if x == 256 || x == 285 then 4 else if x < 285 then 9 - ExtraLength(x - 257) else 0
  }

  function AllRefs(): (l: seq<nat>)
    ensures |l| == 286 && forall x: nat :: At(l, x) == AllRef(x)
  {
    seq(286, x requires 0 <= x < 286 => AllRef(x))
  }

  lemma {:induction false} LiteralRoom(n: nat)
    requires n <= 256
    ensures Sum(All(n), Spot(AllRefs())) == 32 * n
  {
    hide Sum, Pow2;
    assert Pow2(5) == 32 by { Pow2Values(); }
    if n == 0 {
      NothingYet(Spot(AllRefs()));
    } else {
      LiteralRoom(n - 1);
      SumNext(n - 1, Spot(AllRefs()));
      assert AllRef(n - 1) == 10;
    }
  }

  lemma {:induction false} MatchRoom(n: nat)
    requires n <= 28
    ensures Sum(All(257 + n), Spot(AllRefs())) == 8192 + 2048 + LUpTo(n) * Pow2(6)
  {
    hide Sum, Pow2, LUpTo, Room, AllRefs, AllRef, ExtraLength, All;
    if n == 0 {
      LiteralRoom(256);
      SumNext(256, Spot(AllRefs()));
      NothingYet(Spot(AllRefs()));
      RoomOfFour();
    } else {
      var c := n - 1;
      MatchRoom(c);
      SumNext(257 + c, Spot(AllRefs()));
      LReach(c);
      FewExtraBits(c, 0);
      AllRefOf(c);
      RoomTimes(9, ExtraLength(c));
      Distrib(LUpTo(c), Pow2(ExtraLength(c)), Pow2(6));
    }
  }

  lemma AllRefOf(c: nat)
    requires c < 28
    ensures AllRef(257 + c) == 9 - ExtraLength(c) && LRef(0, 257 + c) == 8 - ExtraLength(c)
  {
  }

  lemma RoomOfFour()
    ensures Room(4) == 2048 && AllRef(256) == 4 == AllRef(285) && LUpTo(28) * Pow2(6) == 16384 && Pow2(15) == 32768
  {
    SmallPowers();
    Pow2Values();
  }

  lemma AllRefFits()
    ensures Sum(All(286), Spot(AllRefs())) <= Pow2(15)
  {
    hide Sum, Pow2;
    MatchRoom(28);
    assert 257 + 28 == 285;
    SumNext(285, Spot(AllRefs()));
    RoomOfFour();
  }

  /** A code all of whose lengths are positive where it is used. */
  lemma RefFeasible(s: set<nat>, ref: seq<nat>, n: nat)
    requires Sum(All(n), Spot(ref)) <= Pow2(15) && forall x :: x in s ==> x < n && x < |ref| && 1 <= ref[x] <= 15
    ensures Feasible(s, ref, 15)
  {
    hide Sum, Pow2, All, Weight;
    SumPart(s, All(n), Spot(ref));
    forall x | x in s ensures Weight(ref, 15)(x) == Spot(ref)(x) { WeightIs(ref, 15, x); }
    SumAgree(s, Weight(ref, 15), Spot(ref));
  }

  lemma RefToken(t: Token)
    requires TokenOk(t)
    ensures var c := Codes(AllRefs(), DRefs(15), 15); CanSendToken(c, t) && |TokenBits(c, t)| <= 24
  {
    hide TokenBits, AllRefs, DRefs, LengthCode, DCode, StaticDesc.ExtraBits;
    var c := Codes(AllRefs(), DRefs(15), 15);
    if t.Match? {
      DRefAt(15, DSym(t));
      DExtras(DSym(t));
      AllExtras(LSym(t));
      assert CanSendToken(c, t);
      TokenSize(c, t);
    } else {
      LitExtra(t.b);
      assert CanSendToken(c, t);
      TokenSize(c, t);
    }
  }

  lemma AllExtras(x: nat)
    requires 257 <= x < 286
    ensures AllRef(x) > 0 && AllRef(x) + LDesc().ExtraBits(x) <= 9
  {
  }

  /** With the trees built for few enough tokens, the tokens of a block take at most 24 bits on average. */
  lemma Average(b: Trees, tokens: seq<Token>)
    requires TreesFor(b, tokens) && |tokens| < 2583 && forall i :: 0 <= i < |tokens| ==> TokenOk(tokens[i])
    ensures |BlockBits(b.c, tokens)| <= 24 * |tokens| + 4
  {
    hide Kraft, Pow2, Chosen, Sum, FreqOf, All, Frequencies, TokenOk, CanSend, TreeItems, AllRefs, DRefs, TokensBits,
         Priced, Feasible, Fib, Used, LensBounded, CanSendToken, TokenBits;
    var fl, fd :| Frequencies(fl, fd, tokens) && Chosen(fl, b.c.llens, LDesc()) && Chosen(fd, b.c.dlens, DDesc());
    var c := Codes(AllRefs(), DRefs(15), 15);
    DescSizes();
    FixedSize(tokens, fl, fd);
    BigFib();
    forall i | 0 <= i < |tokens| ensures CanSendToken(c, tokens[i]) && |TokenBits(c, tokens[i])| <= 24 {
      RefToken(tokens[i]);
    }
    TogetherUnder(c, tokens, 24);
    RefsFeasible(fl, fd);
    ChosenCheap(fl, b.c.llens, LDesc(), c.llens, 15);
    ChosenCheap(fd, b.c.dlens, DDesc(), c.dlens, 15);
    assert HasCode(c.llens, END_BLOCK) && c.llens[END_BLOCK] == 4;
    TokensSize(c, tokens, fl, fd);
    OwnSends(b, tokens, fl, fd);
    TokensSize(b.c, tokens, fl, fd);
  }

  lemma RefsFeasible(fl: seq<nat>, fd: seq<nat>)
    ensures Feasible(Used(fl, 286), AllRefs(), 15) && Feasible(Used(fd, 30), DRefs(15), 15)
    ensures forall x :: x in Used(fl, 286) ==> At(AllRefs(), x) >= 1
    ensures forall x :: x in Used(fd, 30) ==> At(DRefs(15), x) >= 1
  {
    hide Sum, Pow2, Feasible, AllRefs, DRefs, All, LUpTo;
    AllRefFits();
    DRefFits(15);
    forall x: nat | x < 286 ensures 1 <= AllRef(x) <= 15 { AllRefAt(x); }
    forall x: nat | x < 30 ensures 1 <= DRefs(15)[x] <= 15 {
      DRefAt(15, x);
      assert DRefs(15)[x] == At(DRefs(15), x);
    }
    RefFeasible(Used(fl, 286), AllRefs(), 286);
    RefFeasible(Used(fd, 30), DRefs(15), 30);
  }

  lemma AllRefAt(x: nat)
    requires x < 286
    ensures 1 <= AllRef(x) <= 15
  {
  }
}
