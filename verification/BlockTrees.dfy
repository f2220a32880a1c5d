/** trees.c: the three trees of a block, and the exact size of the block that they give. */
module BlockTrees {
  import opened Bits
  import opened Canonical
  import opened GenCodes
  import opened SetSum
  import opened Huffman
  import opened TreeBuild
  import opened TreeDepth
  import opened BitLengths
  import opened BuildTree
  import opened CodeLengths
  import opened DecodeTable
  import opened Header
  import opened Tokens
  import opened Blocks
  import opened BlockEncoder
  import opened TreeSender
  import opened BlockSize

  /** The lengths for the frequencies `f`: those of a cheapest code, unless one such code has a code that is too
      long. */
  ghost predicate Fitting(f: seq<nat>, l: seq<nat>, desc: StaticDesc)
  {
    var s := Used(f, desc.elems);
    && GoodLengths(s, f, l, desc.maxLength) && (Cheapest(s, f, l) || TooHigh(s, f, desc.maxLength)) && Earned(s, f, l)
    && forall x: nat :: x !in s ==> At(l, x) == 0
  }

  /** The same, when up to two symbols may have been made up for a tree of two codes. */
  ghost predicate Chosen(f0: seq<nat>, l: seq<nat>, desc: StaticDesc)
  {
    exists f, extra {:trigger Forced(f0, f, desc.elems, extra)} ::
      Forced(f0, f, desc.elems, extra) && Fitting(f, l, desc)
  }

  lemma SameLengths(s: set<nat>, f: seq<nat>, l: seq<nat>, l2: seq<nat>, m: nat)
    requires GoodLengths(s, f, l, m) && forall x :: x in s ==> At(l, x) == At(l2, x) && x < |l2|
    ensures GoodLengths(s, f, l2, m) && (Cheapest(s, f, l) ==> Cheapest(s, f, l2))
      && (Earned(s, f, l) ==> Earned(s, f, l2))
  {
    hide Sum, Pow2, Times, Fib, Feasible;
    SumAgree(s, Weight(l, m), Weight(l2, m));
    SumAgree(s, Price(f, l), Price(f, l2));
  }

  /** A tree built for the frequencies `f0`: a complete code with a code for each symbol that occurs. */
  ghost predicate TreeDone(f0: seq<nat>, fc: seq<nat>, dl: seq<nat>, maxCode: nat, desc: StaticDesc)
  {
    && maxCode < desc.elems <= |dl| && TreeCoded(fc, dl[..maxCode + 1])
    && LensBounded(dl[..maxCode + 1], desc.maxLength) && Kraft(dl[..maxCode + 1], MAX_BITS) == Pow2(MAX_BITS)
    && (forall x: nat :: x < desc.elems && At(f0, x) > 0 ==> x <= maxCode && At(dl, x) > 0)
    && (forall x: nat :: maxCode < x < desc.elems ==> At(dl, x) == 0) && Chosen(f0, dl[..maxCode + 1], desc)
  }

  lemma IsChosen(f0: seq<nat>, f: seq<nat>, extra: set<nat>, dl: seq<nat>, maxCode: nat, desc: StaticDesc)
    requires maxCode < desc.elems <= |dl| && Forced(f0, f, desc.elems, extra)
    requires var s := Used(f, desc.elems);
      && LengthsOf(dl[..maxCode + 1], s, dl) && GoodLengths(s, f, dl, desc.maxLength) && Earned(s, f, dl)
      && (Cheapest(s, f, dl) || TooHigh(s, f, desc.maxLength))
    ensures Chosen(f0, dl[..maxCode + 1], desc)
  {
    hide Used, GoodLengths, Cheapest, TooHigh, Earned, Forced;
    SameLengths(Used(f, desc.elems), f, dl, dl[..maxCode + 1], desc.maxLength);
    assert Fitting(f, dl[..maxCode + 1], desc);
  }

  lemma TreeIsDone(f0: seq<nat>, f: seq<nat>, extra: set<nat>, fc: seq<nat>, dl: seq<nat>, maxCode: nat,
                   desc: StaticDesc)
    requires maxCode < desc.elems <= |dl| && TreeCoded(fc, dl[..maxCode + 1])
    requires LensBounded(dl[..maxCode + 1], desc.maxLength) && Kraft(dl[..maxCode + 1], MAX_BITS) == Pow2(MAX_BITS)
    requires Forced(f0, f, desc.elems, extra) && LengthsOf(dl[..maxCode + 1], Used(f, desc.elems), dl)
    requires (forall x :: maxCode < x < desc.elems ==> dl[x] == 0) && Chosen(f0, dl[..maxCode + 1], desc)
    ensures TreeDone(f0, fc, dl, maxCode, desc)
  {
    hide TreeCoded, LensBounded, Kraft, Pow2, Chosen;
    forall x: nat | x < desc.elems && At(f0, x) > 0 ensures x <= maxCode && At(dl, x) > 0 {
      assert x in Used(f0, desc.elems);
      assert x in Used(f, desc.elems);
    }
  }

  /** All cheapest codes for the symbols have these lengths. */
  ghost predicate Unique(s: set<nat>, f: seq<nat>, best: seq<nat>)
  {
    forall l, k {:trigger Feasible(s, l, k)} :: Feasible(s, l, k) && Cheapest(s, f, l) ==>
      forall x :: x in s ==> At(l, x) == At(best, x)
  }

  /** Then they are the lengths found. */
  lemma ChosenUnique(f0: seq<nat>, l: seq<nat>, desc: StaticDesc, best: seq<nat>)
    requires Chosen(f0, l, desc) && |Used(f0, desc.elems)| > 2 && Unique(Used(f0, desc.elems), f0, best)
    requires forall x :: x in Used(f0, desc.elems) ==> At(best, x) <= desc.maxLength
    ensures forall x: nat :: At(l, x) == if x in Used(f0, desc.elems) then At(best, x) else 0
  {
    hide Earned, Used, Sum;
    var f, extra :| Forced(f0, f, desc.elems, extra) && Fitting(f, l, desc);
    var s := Used(f0, desc.elems);
    Within(s, Used(f, desc.elems));
    assert extra == {} && s + extra == s;
    assert f == f0;
    assert !Deeper(s, f, desc.maxLength);
    assert Feasible(s, l, desc.maxLength);
  }

  lemma FibValues()
    ensures Fib(16) == 987 && Fib(17) == 1597
  {
    assert Fib(4) == 3 && Fib(5) == 5 && Fib(6) == 8 && Fib(7) == 13 && Fib(8) == 21 && Fib(9) == 34 && Fib(10) == 55;
    assert Fib(11) == 89 && Fib(12) == 144 && Fib(13) == 233 && Fib(14) == 377 && Fib(15) == 610;
  }

  /** A code of 15 bits takes a total frequency of 1597. */
  lemma FewAreShort(f0: seq<nat>, l: seq<nat>, desc: StaticDesc)
    requires Chosen(f0, l, desc) && desc.maxLength >= 1 && Sum(All(desc.elems), FreqOf(f0)) < 1597
    ensures LensBounded(l, 14)
  {
    hide Sum, Fib, GoodLengths, Cheapest, TooHigh, All, Used;
    var f, extra :| Forced(f0, f, desc.elems, extra) && Fitting(f, l, desc);
    var s := Used(f, desc.elems);
    UsedPriced(f0, [], desc);
    ForcedBound(f0, f, desc.elems, extra);
    FibValues();
    forall x | 0 <= x < |l| ensures l[x] <= 14 {
      if x in s && extra == {} {
        assert |extra| == 0;
        if l[x] > 14 { FibMono(17, l[x] + 2); }
      } else if x in s {
        TwoCodes(s, f, l, desc.maxLength, x);
      } else {
        assert At(l, x) == 0;
      }
    }
  }

  /** Symbols without a code take nothing. */
  lemma PricedPrefix(f: seq<nat>, l: seq<nat>, n: nat, desc: StaticDesc)
    requires n <= |l| && forall x: nat :: x < desc.elems && At(f, x) > 0 ==> x < n
    ensures Priced(f, l[..n], desc) == Priced(f, l, desc)
  {
    hide Times, Sum, StaticDesc.ExtraBits;
    forall x | x in All(desc.elems) ensures Bill(f, l, desc)(x) == Bill(f, l[..n], desc)(x) {
      if At(f, x) == 0 {
        TimesZero(At(l, x) + desc.ExtraBits(x));
        TimesZero(At(l[..n], x) + desc.ExtraBits(x));
      }
    }
    SumAgree(All(desc.elems), Bill(f, l, desc), Bill(f, l[..n], desc));
  }

  lemma StaticPriced(f: seq<nat>, desc: StaticDesc)
    ensures Sum(Used(f, desc.elems), StaticBill(f, desc)) == if desc.stree == [] then 0 else Priced(f, desc.stree, desc)
  {
    hide Times, StaticDesc.ExtraBits;
    if desc.stree == [] {
      SumAgree(Used(f, desc.elems), StaticBill(f, desc), (x: nat) => 0);
      ZerosAdd({}, Used(f, desc.elems), (x: nat) => 0);
    } else {
      SumAgree(Used(f, desc.elems), StaticBill(f, desc), Bill(f, desc.stree, desc));
      UsedPriced(f, desc.stree, desc);
    }
  }

  /** build_tree, in the terms of the block: what it adds to the sizes is what its symbols will take. */
  method Build(t: TreeState, fc: array<nat>, dl: array<nat>, desc: StaticDesc) returns (maxCode: nat)
    requires t.heap != t.depth && t.heap != fc && t.heap != dl && t.depth != fc && t.depth != dl && fc != dl
    requires t.blCount != t.heap && t.blCount != t.depth && t.blCount != fc && t.blCount != dl && t.blCount.Length == 16
    requires desc.Valid() && 2 * desc.elems <= fc.Length == dl.Length <= t.depth.Length
      && 2 * desc.elems + 1 <= t.heap.Length
    requires Sum(All(desc.elems), FreqOf(fc[..])) <= 0xfffd
    modifies t, t.heap, t.depth, t.blCount, fc, dl
    ensures TreeDone(old(fc[..]), fc[..], dl[..], maxCode, desc)
    ensures t.optLen == old(t.optLen) + Priced(old(fc[..]), dl[..maxCode + 1], desc)
    ensures t.staticLen == old(t.staticLen) + if desc.stree == [] then 0 else Priced(old(fc[..]), desc.stree, desc)
  {
    hide Sum, Kraft, Pow2, TreeCoded, GoodLengths, Cheapest, Used, Priced, FreqOf, StaticDesc.Valid, LensBounded, Bill,
         StaticBill, Forced, LengthsOf, TooHigh, Earned, Chosen;
    ghost var f0 := fc[..];
    UsedPriced(f0, [], desc);
    var cut; ghost var f, extra;
    maxCode, cut, f, extra := BuildTree.BuildTree(t, fc, dl, desc);
    IsChosen(f0, f, extra, dl[..], maxCode, desc);
    TreeIsDone(f0, f, extra, fc[..], dl[..], maxCode, desc);
    UsedPriced(f0, dl[..], desc);
    PricedPrefix(f0, dl[..], maxCode + 1, desc);
    StaticPriced(f0, desc);
  }

  // Zero lengths at the end of a tree change nothing.

  ghost predicate ZeroFrom(lens: seq<nat>, n: nat) { n <= |lens| && forall x :: n <= x < |lens| ==> lens[x] == 0 }

  lemma {:induction false} ZerosCount(lens: seq<nat>, n: nat, m: nat, b: nat)
    requires ZeroFrom(lens, n) && b >= 1
    ensures Count(lens, b) == Count(lens[..n], b) && Kraft(lens, m) == Kraft(lens[..n], m)
  {
    if |lens| == n {
      assert lens[..n] == lens;
    } else {
      var r := lens[..|lens| - 1];
      ZerosCount(r, n, m, b);
      assert r[..n] == lens[..n];
    }
  }

  lemma {:induction false} ZerosFirst(lens: seq<nat>, n: nat, b: nat)
    requires ZeroFrom(lens, n)
    ensures FirstCode(lens, b) == FirstCode(lens[..n], b)
  {
    if b > 1 {
      ZerosFirst(lens, n, b - 1);
      ZerosCount(lens, n, 0, b - 1);
    }
  }

  lemma ZerosCoded(fc: seq<nat>, lens: seq<nat>, n: nat)
    requires ZeroFrom(lens, n) && TreeCoded(fc, lens[..n]) && |lens| <= |fc|
    ensures TreeCoded(fc, lens)
  {
    hide FirstCode, Count, Value, ToMsb;
    forall s | 0 <= s < |lens| ensures lens[s] <= 15 && (lens[s] > 0 ==> fc[s] == Value(CodeBits(lens, s))) {
      if s < n {
        assert lens[..n][s] == lens[s];
        ZerosFirst(lens, n, lens[s]);
        assert lens[..n][..s] == lens[..s];
      }
    }
  }

  /** The whole bit length tree, with the lengths zero after its last code. */
  lemma WholeTree(f0: seq<nat>, fc: seq<nat>, dl: seq<nat>, maxCode: nat, desc: StaticDesc)
    requires TreeDone(f0, fc, dl, maxCode, desc) && desc.elems <= |fc|
    ensures TreeCoded(fc, dl[..desc.elems]) && LensBounded(dl[..desc.elems], desc.maxLength)
    ensures Kraft(dl[..desc.elems], MAX_BITS) == Pow2(MAX_BITS)
  {
    hide TreeCoded, Kraft, Pow2;
    var lens := dl[..desc.elems];
    assert lens[..maxCode + 1] == dl[..maxCode + 1];
    forall x | maxCode + 1 <= x < |lens| ensures lens[x] == 0 { assert At(dl, x) == 0; }
    ZerosCount(lens, maxCode + 1, MAX_BITS, 1);
    ZerosCoded(fc, lens, maxCode + 1);
    forall s | 0 <= s < |lens| ensures lens[s] <= desc.maxLength {
      if s <= maxCode { assert lens[s] == dl[..maxCode + 1][s]; }
    }
  }

  lemma CompleteNotRejected(ty: CodeType, lens: seq<nat>)
    requires Kraft(lens, MAX_BITS) == Pow2(MAX_BITS)
    ensures !Rejected(ty, lens, MAX_BITS)
  {
  }

  /** Every symbol that occurs has a code. */
  lemma TokensCovered(c: Codes, tokens: seq<Token>, fl: seq<nat>, fd: seq<nat>)
    requires Frequencies(fl, fd, tokens) && forall i :: 0 <= i < |tokens| ==> TokenOk(tokens[i])
    requires forall x: nat :: x < 286 && At(fl, x) > 0 ==> HasCode(c.llens, x)
    requires forall x: nat :: x < 30 && At(fd, x) > 0 ==> HasCode(c.dlens, x)
    ensures CanSendAll(c, tokens)
  {
    hide LengthCode, DCode, LUses, DUses, HasCode;
    forall i | 0 <= i < |tokens| ensures CanSendToken(c, tokens[i]) {
      OccursL(tokens, i);
      if tokens[i].Match? { OccursD(tokens, i); }
    }
  }

  lemma {:induction false} OccursL(tokens: seq<Token>, i: nat)
    requires i < |tokens|
    ensures LUses(tokens, LSym(tokens[i])) > 0
  {
    if i < |tokens| - 1 { OccursL(tokens[..|tokens| - 1], i); }
  }

  lemma {:induction false} OccursD(tokens: seq<Token>, i: nat)
    requires i < |tokens| && tokens[i].Match?
    ensures DUses(tokens, DSym(tokens[i])) > 0
  {
    if i < |tokens| - 1 { OccursD(tokens[..|tokens| - 1], i); }
  }

  lemma {:induction false} OccursItem(items: seq<Item>, i: nat)
    requires i < |items|
    ensures Uses(items, items[i].sym) > 0
  {
    if i < |items| - 1 { OccursItem(items[..|items| - 1], i); }
  }

  lemma ItemsCovered(blens: seq<nat>, items: seq<Item>, f: seq<nat>)
    requires |blens| == 19 && AllOk(items) && forall x: nat :: x < 19 ==> At(f, x) == Uses(items, x)
    requires forall x: nat :: x < 19 && At(f, x) > 0 ==> blens[x] > 0
    ensures CanSend(blens, items) && Coverable(blens, items)
  {
    hide Uses;
    forall i | 0 <= i < |items| ensures ItemOk(items[i]) && items[i].sym < 19 && blens[items[i].sym] > 0 {
      OccursItem(items, i);
    }
  }
}
