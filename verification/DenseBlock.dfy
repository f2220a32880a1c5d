/** A block that loses tokens although it is sent with the trees built for it: the smallest buffer, full of matches at
    distances and of lengths for which even the best code takes almost 23 bits a token, after a header of some 180. */
module DenseBlock {
  import opened Bits
  import opened BitWriter
  import opened Canonical
  import opened GenCodes
  import opened SetSum
  import opened Huffman
  import opened TreeBuild
  import opened BuildTree
  import opened Dyadic
  import opened CodeLengths
  import opened Header
  import opened Tokens
  import opened Blocks
  import opened BlockEncoder
  import opened BlockSize
  import opened BlockTrees
  import opened Stream
  import opened FlushBlock
  import opened Overlay
  import opened LostTokens
  import SpoiledBlock
  import Deflater

  // Code lengths, and frequencies that are their code spaces, but for one match less.

  function LLen(x: nat): (n: nat)
    ensures n <= 7
  {
    if x < 256 then 0 else if x < 259 then 7 else if x < 265 then 0 else if x < 269 then 7 else if x < 273 then 6
    else if x < 277 then 5 else if x < 281 then 4 else if x < 285 then 3 else if x == 285 then 7 else 0
  }

  function DLen(x: nat): (n: nat)
    ensures n <= 7
  {
    if x < 18 then 0 else if x < 22 then 6 else if x < 24 then 5 else if x < 26 then 4 else if x < 28 then 3
    else if x < 30 then 2 else 0
  }

  function Space(n: nat): nat
    requires n <= 7
  {
    if n == 0 then 0 else Pow2(7 - n)
  }

  function LFreq(x: nat): nat { Space(LLen(x)) }

  function DFreq(x: nat): nat { if x == 22 then 3 else Space(DLen(x)) }

  /** The symbols of match `i`, in ascending order. */
  function LAt(i: nat): (x: nat)
    ensures i < 127 ==> 257 <= x < 286
  {
    if i < 2 then 257 + i else if i < 6 then 263 + i else if i < 14 then 269 + (i - 6) / 2
    else if i < 30 then 273 + (i - 14) / 4 else if i < 62 then 277 + (i - 30) / 8
    else if i < 126 then 281 + (i - 62) / 16 else 285
  }

  function DAt(i: nat): (x: nat)
    ensures i < 127 ==> 18 <= x < 30
  {
    if i < 8 then 18 + i / 2 else if i < 11 then 22 else if i < 15 then 23 else if i < 31 then 24 + (i - 15) / 8
    else if i < 63 then 26 + (i - 31) / 16 else 28 + (i - 63) / 32
  }

  /** Where each symbol begins. */
  function LStart(x: nat): int
  {
    if x < 259 then x - 257 else if x < 269 then x - 263 else if x < 273 then 6 + 2 * (x - 269)
    else if x < 277 then 14 + 4 * (x - 273) else if x < 281 then 30 + 8 * (x - 277)
    else if x < 285 then 62 + 16 * (x - 281) else 126
  }

  function DStart(x: nat): int
  {
    if x < 22 then 2 * (x - 18) else if x == 22 then 8 else if x == 23 then 11 else if x < 26 then 15 + 8 * (x - 24)
    else if x < 28 then 31 + 16 * (x - 26) else 63 + 32 * (x - 28)
  }

  lemma Spaces()
    ensures Space(0) == 0 && Space(7) == 1 && Space(6) == 2 && Space(5) == 4 && Space(4) == 8 && Space(3) == 16
      && Space(2) == 32
  {
    SmallPowers();
  }

  lemma LInOrder(i: nat, x: nat)
    requires i < 127 && x != 256
    ensures LAt(i) == x <==> 0 < LFreq(x) && LStart(x) <= i < LStart(x) + LFreq(x)
  {
    hide Pow2, Space;
    Spaces();
  }

  lemma DInOrder(i: nat, x: nat)
    requires i < 127
    ensures DAt(i) == x <==> 0 < DFreq(x) && DStart(x) <= i < DStart(x) + DFreq(x)
  {
    hide Pow2, Space;
    Spaces();
  }

  // The tokens.

  function Tok(i: nat): Token
    requires i < 127
  {
    Match(SpoiledBlock.LenOf(LAt(i) - 257), BaseDist(DAt(i)) + 1)
  }

  function Dense(): (ts: seq<Token>)
    ensures |ts| == 127 && forall i :: 0 <= i < 127 ==> ts[i] == Tok(i)
  {
    seq(127, i requires 0 <= i < 127 => Tok(i))
  }

  lemma CodeOfDist(c: nat)
    requires c < 30
    ensures BaseDist(c) < 0x8000 && DCode(BaseDist(c)) == c
  {
    hide BaseDist, ExtraDist, Pow2, DCode;
    DistSmall(c);
    DistCodeFits(BaseDist(c));
    var r := DCode(BaseDist(c));
    if r < c { DistsApart(r, c); }
    if c < r {
      DistsApart(c, r);
      DistSmall(c);
    }
  }

  lemma TokSymbols(i: nat)
    requires i < 127
    ensures TokenOk(Tok(i)) && LSym(Tok(i)) == LAt(i) && DSym(Tok(i)) == DAt(i)
  {
    hide BaseDist, DCode, LengthCode, SpoiledBlock.LenOf, LAt, DAt;
    SpoiledBlock.CodeOfLen(LAt(i) - 257);
    CodeOfDist(DAt(i));
  }

  lemma DenseOk()
    ensures forall i :: 0 <= i < |Dense()| ==> TokenOk(Dense()[i])
  {
    hide Tok, TokenOk;
    forall i | 0 <= i < 127 ensures TokenOk(Dense()[i]) { TokSymbols(i); }
  }

  function Clamp(k: int, m: nat): nat { if k < 0 then 0 else if k > m then m else k }

  /** How often each symbol occurs in the first `n` tokens. */
  lemma {:induction false} LCount(n: nat, x: nat)
    requires n <= 127 && x != 256
    ensures LUses(Dense()[..n], x) == if LFreq(x) == 0 then 0 else Clamp(n - LStart(x), LFreq(x))
  {
    hide LSym, Tok, LFreq, LStart, LAt;
    if n == 0 {
      LFirst(x);
    } else {
      LCount(n - 1, x);
      assert Dense()[..n][..n - 1] == Dense()[..n - 1];
      TokSymbols(n - 1);
      LInOrder(n - 1, x);
    }
  }

  lemma LFirst(x: nat)
    requires x != 256
    ensures LFreq(x) > 0 ==> 0 <= LStart(x) && LStart(x) + LFreq(x) <= 127
  {
    hide Pow2, Space;
    Spaces();
  }

  lemma {:induction false} DCount(n: nat, x: nat)
    requires n <= 127
    ensures DUses(Dense()[..n], x) == if DFreq(x) == 0 then 0 else Clamp(n - DStart(x), DFreq(x))
  {
    hide DSym, Tok, DFreq, DStart, DAt;
    if n == 0 {
      DFirst(x);
    } else {
      DCount(n - 1, x);
      assert Dense()[..n][..n - 1] == Dense()[..n - 1];
      TokSymbols(n - 1);
      DInOrder(n - 1, x);
      assert Tok(n - 1).Match? by { IsMatch(n - 1); }
    }
  }

  lemma IsMatch(i: nat)
    requires i < 127
    ensures Tok(i).Match?
  {
  }

  lemma DFirst(x: nat)
    ensures DFreq(x) > 0 ==> 0 <= DStart(x) && DStart(x) + DFreq(x) <= 127
  {
    hide Pow2, Space;
    Spaces();
  }

  /** The frequencies of the block. */
  lemma DenseFrequencies(fl: seq<nat>, fd: seq<nat>)
    requires Frequencies(fl, fd, Dense())
    ensures forall x: nat :: x < 286 ==> At(fl, x) == LFreq(x)
    ensures forall x: nat :: x < 30 ==> At(fd, x) == DFreq(x)
  {
    hide LFreq, DFreq, LStart, DStart, LUses, DUses, Dense;
    assert Dense()[..127] == Dense();
    forall x: nat | x < 286 ensures At(fl, x) == LFreq(x) {
      if x != 256 {
        LCount(127, x);
        LFirst(x);
      } else {
        EndOnce();
      }
    }
    forall x: nat | x < 30 ensures At(fd, x) == DFreq(x) {
      DCount(127, x);
      DFirst(x);
    }
  }

  /** No match takes the end-of-block code, and it occurs once. */
  lemma EndOnce()
    ensures LFreq(256) == 1 && LUses(Dense(), 256) == 0
  {
    hide LUses;
    Spaces();
    assert Dense()[..127] == Dense();
    NoEnd(127);
  }

  lemma {:induction false} NoEnd(n: nat)
    requires n <= 127
    ensures LUses(Dense()[..n], 256) == 0
  {
    hide LSym, Tok, LAt;
    if n > 0 {
      NoEnd(n - 1);
      assert Dense()[..n][..n - 1] == Dense()[..n - 1];
      TokSymbols(n - 1);
    }
  }

  // The codes built for these frequencies.

  function LBest(): (l: seq<nat>)
    ensures |l| == 286 && forall x :: 0 <= x < 286 ==> l[x] == LLen(x)
  {
    seq(286, x => if x < 0 then 0 else LLen(x))
  }

  function DBest(): (l: seq<nat>)
    ensures |l| == 30 && forall x :: 0 <= x < 30 ==> l[x] == DLen(x)
  {
    seq(30, x => if x < 0 then 0 else DLen(x))
  }

  lemma SpaceIs(n: nat)
    requires 1 <= n <= 7
    ensures Space(n) == Pow2(7 - n) >= 1
  {
  }

  ghost predicate LFreqs(fl: seq<nat>)
  {
    (forall x: nat :: x < 286 ==> At(fl, x) == LFreq(x)) && Sum(All(286), FreqOf(fl)) == 128
  }

  ghost predicate DFreqs(fd: seq<nat>)
  {
    (forall x: nat :: x < 30 ==> At(fd, x) == DFreq(x)) && Sum(All(30), FreqOf(fd)) == 127
  }

  /** Frequencies that are code spaces, and add up to all of it. */
  lemma Matches(s: set<nat>, f: seq<nat>, best: seq<nat>)
    requires forall x :: x in s ==> x < |best| && 1 <= best[x] <= 7 && At(f, x) == Space(best[x])
    requires Sum(s, FreqOf(f)) == 128
    ensures Matching(s, f, best, 7) && Feasible(s, best, 7)
  {
    hide Pow2, Sum;
    assert Pow2(7) == 128 by { SmallPowers(); }
    SumAgree(s, FreqOf(f), Weight(best, 7));
  }

  lemma LUnique(fl: seq<nat>)
    requires LFreqs(fl)
    ensures Unique(Used(fl, 286), fl, LBest()) && |Used(fl, 286)| > 2
    ensures forall x: nat :: x in Used(fl, 286) <==> x < 286 && LLen(x) > 0
  {
    hide Pow2, Sum, LLen, Cost, Feasible, FreqOf;
    var s := Used(fl, 286);
    LUsed(fl);
    DescSizes();
    UsedPriced(fl, [], LDesc());
    Matches(s, fl, LBest());
    forall l, k {:trigger Feasible(s, l, k)} | Feasible(s, l, k) && Cheapest(s, fl, l)
      ensures forall x :: x in s ==> At(l, x) == At(LBest(), x)
    {
      OnlyCheapest(s, fl, LBest(), 7, l, k);
    }
  }

  lemma LUsed(fl: seq<nat>)
    requires forall x: nat :: x < 286 ==> At(fl, x) == LFreq(x)
    ensures forall x: nat :: x in Used(fl, 286) <==> x < 286 && LLen(x) > 0
    ensures |Used(fl, 286)| > 2
  {
    hide Space, LLen;
    forall x: nat | x < 286 ensures At(fl, x) != 0 <==> LLen(x) > 0 {
      if LLen(x) > 0 { SpaceIs(LLen(x)); } else { Spaces(); }
    }
    assert LLen(256) == 7 && LLen(257) == 7 && LLen(258) == 7 by { Sevens(); }
    Within({256, 257, 258}, Used(fl, 286));
  }

  lemma Sevens()
    ensures LLen(256) == 7 && LLen(257) == 7 && LLen(258) == 7 && DLen(18) == 6 && DLen(19) == 6 && DLen(20) == 6
      && DLen(22) == 5 && DFreq(22) == 3
  {
  }

  lemma DUsed(fd: seq<nat>)
    requires forall x: nat :: x < 30 ==> At(fd, x) == DFreq(x)
    ensures forall x: nat :: x in Used(fd, 30) <==> x < 30 && DLen(x) > 0
    ensures |Used(fd, 30)| > 2 && 22 in Used(fd, 30)
  {
    hide Space, DLen;
    Sevens();
    forall x: nat | x < 30 ensures At(fd, x) != 0 <==> DLen(x) > 0 {
      if DLen(x) > 0 { SpaceIs(DLen(x)); } else { Spaces(); }
    }
    Within({18, 19, 20}, Used(fd, 30));
  }

  /** One match more makes them code spaces, too. */
  lemma DMatches(fd: seq<nat>, f2: seq<nat>, s: set<nat>)
    requires DFreqs(fd) && s == Used(fd, 30) && |fd| > 22 && f2 == fd[22 := 4]
    ensures OneLess(s, fd, f2, 22) && At(f2, 22) == 4 && Matching(s, f2, DBest(), 7) && Feasible(s, DBest(), 7)
  {
    hide Pow2, Sum, DLen, Space, Used, Feasible, Matching, DBest;
    DUsed(fd);
    Sevens();
    Spaces();
    assert DDesc().elems == 30 by { DescSizes(); }
    UsedPriced(fd, [], DDesc());
    SumRemove(s, FreqOf(fd), 22);
    SumRemove(s, FreqOf(f2), 22);
    SumAgree(s - {22}, FreqOf(fd), FreqOf(f2));
    forall x | x in s ensures x < 30 && 1 <= DBest()[x] <= 7 && At(f2, x) == Space(DBest()[x]) {
      assert At(fd, x) == DFreq(x);
    }
    Matches(s, f2, DBest());
  }

  lemma DUnique(fd: seq<nat>)
    requires DFreqs(fd)
    ensures Unique(Used(fd, 30), fd, DBest())
  {
    hide Pow2, Sum, DLen, Cost, Feasible, FreqOf, Used, DFreq;
    var s := Used(fd, 30);
    DUsed(fd);
    Sevens();
    assert At(fd, 22) == 3;
    var f2 := fd[22 := 4];
    DMatches(fd, f2, s);
    forall l, k {:trigger Feasible(s, l, k)} | Feasible(s, l, k) && Cheapest(s, fd, l)
      ensures forall x :: x in s ==> At(l, x) == At(DBest(), x)
    {
      AlmostOnly(s, fd, f2, DBest(), 7, l, k, 22);
    }
  }

  /** Every token is a match. */
  lemma {:induction false} MatchTotal(tokens: seq<Token>, fd: seq<nat>)
    requires forall x: nat :: x < 30 ==> At(fd, x) == DUses(tokens, x)
    requires forall i :: 0 <= i < |tokens| ==> tokens[i].Match? && DSym(tokens[i]) < 30
    ensures Sum(All(30), FreqOf(fd)) == |tokens|
    decreases tokens
  {
    hide DSym, Sum, FreqOf, All;
    assert DDesc().elems == 30 by { DescSizes(); }
    if tokens == [] {
      NothingPriced(fd, [], DDesc());
    } else {
      var n := |tokens| - 1;
      var fd2 := Unbump(fd, 30, DSym(tokens[n]));
      BumpedPriced(fd2, fd, [], DDesc(), DSym(tokens[n]));
      MatchTotal(tokens[..n], fd2);
    }
  }

  lemma DenseFreqs(fl: seq<nat>, fd: seq<nat>)
    requires Frequencies(fl, fd, Dense())
    ensures LFreqs(fl) && DFreqs(fd)
  {
    hide Dense, Sum, FreqOf, All, LFreq, DFreq, DUses, LUses, DSym, Tok, DAt;
    DenseOk();
    DenseFrequencies(fl, fd);
    FixedSize(Dense(), fl, fd);
    forall i | 0 <= i < |Dense()| ensures Dense()[i].Match? && DSym(Dense()[i]) < 30 {
      TokSymbols(i);
      IsMatch(i);
    }
    MatchTotal(Dense(), fd);
  }

  /** The trees of this block can have no other lengths. */
  lemma DenseTrees(b: Trees)
    requires TreesFor(b, Dense())
    ensures b.c.llens == LBest() && b.c.dlens == DBest()
  {
    hide Dense, Frequencies, Chosen, LFreqs, DFreqs, Used, Unique, LLen, DLen, Kraft, Pow2, TreeItems, CanSend;
    var fl, fd :| Frequencies(fl, fd, Dense()) && Chosen(fl, b.c.llens, LDesc()) && Chosen(fd, b.c.dlens, DDesc());
    DenseFreqs(fl, fd);
    LIs(fl, b.c.llens);
    DIs(fd, b.c.dlens);
  }

  lemma LIs(fl: seq<nat>, l: seq<nat>)
    requires LFreqs(fl) && Chosen(fl, l, LDesc()) && |l| <= 286
    ensures l == LBest()
  {
    hide Chosen, LFreqs, Used, Unique;
    LUnique(fl);
    ChosenUnique(fl, l, LDesc(), LBest());
    assert At(l, 285) == 7;
  }

  lemma DIs(fd: seq<nat>, l: seq<nat>)
    requires DFreqs(fd) && Chosen(fd, l, DDesc()) && |l| <= 30
    ensures l == DBest()
  {
    hide Chosen, Used, Unique, DFreq, Sum, FreqOf, All;
    DUnique(fd);
    DUsed(fd);
    ChosenUnique(fd, l, DDesc(), DBest());
    assert At(l, 29) == 2;
  }

  // The header.

  /** The first `k` lengths of a run, of which `count` have been passed. */
  lemma {:induction false} OneRun(lens: seq<nat>, n: nat, prev: int, cur: nat, count: nat, k: nat)
    requires count < k <= MaxCount(prev, cur) && n + (k - count) <= |lens|
    requires forall i :: n <= i < n + (k - count) ==> lens[i] == cur
    requires k == MaxCount(prev, cur) || n + (k - count) == |lens| || lens[n + (k - count)] != cur
    ensures Runs(lens, n, prev, count) == Run(prev, cur, k) + Runs(lens, n + (k - count), cur, 0)
    decreases k - count
  {
    hide Run;
    if count + 1 < k {
      assert lens[n + 1] == cur;
      OneRun(lens, n + 1, prev, cur, count + 1, k);
    }
  }

  /** The bits of some items. */
  function Size(blens: seq<nat>, items: seq<Item>): nat { |EncodeItems(blens, items)| }

  lemma SizeConcat(blens: seq<nat>, a: seq<Item>, b: seq<Item>)
    ensures Size(blens, a + b) == Size(blens, a) + Size(blens, b)
  {
    hide EncodeItems;
    EncodeConcat(blens, a, b);
  }

  lemma SizeOne(blens: seq<nat>, it: Item)
    requires it.sym < |blens|
    ensures Size(blens, [it]) == blens[it.sym] + ExtraBits(it.sym)
  {
    hide CodeBits, ToBits;
    EncodeNone(blens);
    assert [it][..0] == [];
    assert EncodeItems(blens, [it]) == [] + ItemBits(blens, it);
  }

  lemma SizeTwo(blens: seq<nat>, a: Item, b: Item)
    requires a.sym < |blens| && b.sym < |blens|
    ensures Size(blens, [a, b]) == blens[a.sym] + ExtraBits(a.sym) + blens[b.sym] + ExtraBits(b.sym)
  {
    hide EncodeItems;
    assert [a, b] == [a] + [b];
    SizeConcat(blens, [a], [b]);
    SizeOne(blens, a);
    SizeOne(blens, b);
  }

  /** A run of zeros, of one to three lengths, or of four. */
  lemma SizeRun(blens: seq<nat>, prev: int, cur: nat, k: nat)
    requires |blens| == 19 && 1 <= k <= MaxCount(prev, cur) && cur < 16 && (prev != cur || cur == 0)
    ensures cur != 0 && k <= 3 ==> Size(blens, Run(prev, cur, k)) == k * blens[cur]
    ensures cur != 0 && k == 4 ==> Size(blens, Run(prev, cur, k)) == blens[cur] + blens[16] + 2
    ensures cur == 0 && 3 <= k <= 10 ==> Size(blens, Run(prev, cur, k)) == blens[17] + 3
    ensures cur == 0 && k > 10 ==> Size(blens, Run(prev, cur, k)) == blens[18] + 7
  {
    hide EncodeItems;
    var it := Item(cur, 0);
    if cur != 0 && k <= 3 {
      SizeOne(blens, it);
      assert Run(prev, cur, k) == Items(it, k);
      if k == 1 { assert Items(it, 1) == [it]; }
      if k >= 2 { SizeTwo(blens, it, it); }
      if k == 2 { assert Items(it, 2) == [it, it]; }
      if k == 3 {
        assert Items(it, 3) == [it, it] + [it];
        SizeConcat(blens, [it, it], [it]);
      }
    } else if cur != 0 && k == 4 {
      SizeTwo(blens, it, Item(16, 0));
    } else if cur == 0 && 3 <= k <= 10 {
      SizeOne(blens, Item(17, k - 3));
    } else if cur == 0 && k > 10 {
      SizeOne(blens, Item(18, k - 11));
    }
  }

  /** The items of the literal and length tree. */
  lemma LItems(blens: seq<nat>)
    requires |blens| == 19
    ensures Size(blens, TreeItems(LBest())) == 2 * blens[18] + blens[17] + 5 * blens[16] + 5 * blens[7] + blens[6]
      + blens[5] + blens[4] + blens[3] + 27
  {
    hide Runs, Run, LLen, EncodeItems, Size;
    var l := LBest();
    LRuns(l);
    EndOfRuns(l);
    var r0, r1, r2, r3, r4 := Run(-1, 0, 138), Run(0, 0, 118), Run(0, 7, 3), Run(7, 0, 6), Run(0, 7, 4);
    var r5, r6, r7, r8, r9 := Run(7, 6, 4), Run(6, 5, 4), Run(5, 4, 4), Run(4, 3, 4), Run(3, 7, 1);
    Chain(blens, r5, r6, r7, r8, r9);
    Chain(blens, r0, r1, r2, r3, r4 + (r5 + (r6 + (r7 + (r8 + r9)))));
    SizeConcat(blens, r4, r5 + (r6 + (r7 + (r8 + r9))));
    SizeRun(blens, -1, 0, 138);
    SizeRun(blens, 0, 0, 118);
    SizeRun(blens, 0, 7, 3);
    SizeRun(blens, 7, 0, 6);
    SizeRun(blens, 0, 7, 4);
    SizeRun(blens, 7, 6, 4);
    SizeRun(blens, 6, 5, 4);
    SizeRun(blens, 5, 4, 4);
    SizeRun(blens, 4, 3, 4);
    SizeRun(blens, 3, 7, 1);
  }

  lemma Chain(blens: seq<nat>, a: seq<Item>, b: seq<Item>, c: seq<Item>, d: seq<Item>, e: seq<Item>)
    ensures Size(blens, a + (b + (c + (d + e)))) ==
      Size(blens, a) + Size(blens, b) + Size(blens, c) + Size(blens, d) + Size(blens, e)
  {
    hide Size;
    SizeConcat(blens, d, e);
    SizeConcat(blens, c, d + e);
    SizeConcat(blens, b, c + (d + e));
    SizeConcat(blens, a, b + (c + (d + e)));
  }

  lemma EndOfRuns(l: seq<nat>)
    ensures forall prev: int :: Runs(l, |l|, prev, 0) == []
  {
  }

  lemma LRuns(l: seq<nat>)
    requires l == LBest()
    ensures TreeItems(l) == Run(-1, 0, 138) + (Run(0, 0, 118) + (Run(0, 7, 3) + (Run(7, 0, 6) + (Run(0, 7, 4)
      + (Run(7, 6, 4) + (Run(6, 5, 4) + (Run(5, 4, 4) + (Run(4, 3, 4) + Run(3, 7, 1)))))))))
  {
    hide Runs, Run;
    EndOfRuns(l);
    OneRun(l, 0, -1, 0, 0, 138);
    OneRun(l, 138, 0, 0, 0, 118);
    OneRun(l, 256, 0, 7, 0, 3);
    OneRun(l, 259, 7, 0, 0, 6);
    OneRun(l, 265, 0, 7, 0, 4);
    OneRun(l, 269, 7, 6, 0, 4);
    OneRun(l, 273, 6, 5, 0, 4);
    OneRun(l, 277, 5, 4, 0, 4);
    OneRun(l, 281, 4, 3, 0, 4);
    OneRun(l, 285, 3, 7, 0, 1);
    assert Run(3, 7, 1) + [] == Run(3, 7, 1);
  }

  /** The items of the distance tree. */
  lemma DItems(blens: seq<nat>)
    requires |blens| == 19
    ensures Size(blens, TreeItems(DBest())) == blens[18] + blens[16] + blens[6] + 2 * blens[5] + 2 * blens[4]
      + 2 * blens[3] + 2 * blens[2] + 9
  {
    hide Runs, Run, DLen, EncodeItems, Size;
    var l := DBest();
    DRuns(l);
    var r0, r1, r2, r3, r4, r5 := Run(-1, 0, 18), Run(0, 6, 4), Run(6, 5, 2), Run(5, 4, 2), Run(4, 3, 2), Run(3, 2, 2);
    Chain(blens, r0, r1, r2, r3, r4 + r5);
    SizeConcat(blens, r4, r5);
    SizeRun(blens, -1, 0, 18);
    SizeRun(blens, 0, 6, 4);
    SizeRun(blens, 6, 5, 2);
    SizeRun(blens, 5, 4, 2);
    SizeRun(blens, 4, 3, 2);
    SizeRun(blens, 3, 2, 2);
  }

  lemma DRuns(l: seq<nat>)
    requires l == DBest()
    ensures TreeItems(l) == Run(-1, 0, 18) + (Run(0, 6, 4) + (Run(6, 5, 2) + (Run(5, 4, 2) + (Run(4, 3, 2)
      + Run(3, 2, 2)))))
  {
    hide Runs, Run;
    EndOfRuns(l);
    OneRun(l, 0, -1, 0, 0, 18);
    OneRun(l, 18, 0, 6, 0, 4);
    OneRun(l, 22, 6, 5, 0, 2);
    OneRun(l, 24, 5, 4, 0, 2);
    OneRun(l, 26, 4, 3, 0, 2);
    OneRun(l, 28, 3, 2, 0, 2);
    assert Run(3, 2, 2) + [] == Run(3, 2, 2);
  }

  lemma KraftLast(lens: seq<nat>, n: nat)
    requires n < |lens| && lens[n] <= 7
    ensures Kraft(lens[..n + 1], 15) == Kraft(lens[..n], 15) + 256 * Space(lens[n])
  {
    assert lens[..n + 1][..n] == lens[..n];
    if lens[n] > 0 {
      Pow2Add(8, 7 - lens[n]);
      assert 8 + (7 - lens[n]) == 15 - lens[n];
      SmallPowers();
    }
  }

  /** The symbols of the header share the code space. */
  lemma SpacesFit(blens: seq<nat>)
    requires |blens| == 19 && (forall s :: 0 <= s < 19 ==> blens[s] < 8) && Kraft(blens, 15) <= Pow2(15)
    ensures Space(blens[18]) + Space(blens[17]) + Space(blens[16]) + Space(blens[7]) + Space(blens[6]) + Space(blens[5])
      + Space(blens[4]) + Space(blens[3]) + Space(blens[2]) <= 128
  {
    hide Kraft, Pow2, Space;
    assert blens[..19] == blens && blens[..0] == [];
    KraftEmpty();
    KraftLast(blens, 0); KraftLast(blens, 1); KraftLast(blens, 2); KraftLast(blens, 3); KraftLast(blens, 4);
    KraftLast(blens, 5); KraftLast(blens, 6); KraftLast(blens, 7); KraftLast(blens, 8); KraftLast(blens, 9);
    KraftLast(blens, 10); KraftLast(blens, 11); KraftLast(blens, 12); KraftLast(blens, 13); KraftLast(blens, 14);
    KraftLast(blens, 15); KraftLast(blens, 16); KraftLast(blens, 17); KraftLast(blens, 18);
  }

  lemma KraftEmpty()
    ensures Kraft([], 15) == 0 && Pow2(15) == 256 * 128
  {
    Pow2Values();
  }

  /** `f` codes of length `n` take at least what the line through two lengths gives. */
  lemma Line(f: nat, beta: nat, n: nat)
    requires 1 <= n <= 7
    requires (f, beta) in {(6, 2), (5, 2), (3, 3), (2, 3), (1, 4)}
    ensures 128 * (f * n) + 24 * Space(n) >= 128 * (f * (beta + 1))
  {
    SmallPowers();
  }

  /** So they cannot all be short. */
  lemma CodesTake(blens: seq<nat>)
    requires |blens| == 19 && (forall s :: 0 <= s < 19 ==> blens[s] < 8) && Kraft(blens, 15) <= Pow2(15)
    requires forall s :: 2 <= s <= 7 || 16 <= s < 19 ==> blens[s] > 0
    ensures 3 * blens[18] + blens[17] + 6 * blens[16] + 5 * blens[7] + 2 * blens[6] + 3 * blens[5] + 3 * blens[4]
      + 3 * blens[3] + 2 * blens[2] >= 78
  {
    hide Kraft, Pow2, Space;
    SpacesFit(blens);
    Line(3, 3, blens[18]);
    Line(1, 4, blens[17]);
    Line(6, 2, blens[16]);
    Line(5, 2, blens[7]);
    Line(2, 3, blens[6]);
    Line(3, 3, blens[5]);
    Line(3, 3, blens[4]);
    Line(3, 3, blens[3]);
    Line(2, 3, blens[2]);
  }

  lemma InRuns()
    ensures Item(18, 127) in Run(-1, 0, 138) && Item(17, 3) in Run(7, 0, 6) && Item(7, 0) in Run(0, 7, 4)
      && Item(6, 0) in Run(7, 6, 4) && Item(5, 0) in Run(6, 5, 4) && Item(4, 0) in Run(5, 4, 4)
      && Item(3, 0) in Run(4, 3, 4) && Item(16, 0) in Run(7, 6, 4) && Item(2, 0) in Run(3, 2, 2)
  {
    assert Run(3, 2, 2)[0] == Item(2, 0);
  }

  /** The header needs a code for these symbols. */
  lemma Needed(blens: seq<nat>)
    requires |blens| == 19 && CanSend(blens, TreeItems(LBest()) + TreeItems(DBest()))
    ensures forall s :: 2 <= s <= 7 || 16 <= s < 19 ==> blens[s] > 0
  {
    hide Run, Runs, LLen, DLen;
    LRuns(LBest());
    DRuns(DBest());
    InRuns();
    var items := TreeItems(LBest()) + TreeItems(DBest());
    assert forall it :: it in items ==> it.sym < 19 && blens[it.sym] > 0;
    assert Item(18, 127) in items && Item(17, 3) in items && Item(7, 0) in items && Item(6, 0) in items;
    assert Item(5, 0) in items && Item(4, 0) in items && Item(3, 0) in items && Item(16, 0) in items;
    assert Item(2, 0) in items;
  }

  /** The size of the header. */
  lemma DenseHeader(b: Trees)
    requires TreesFor(b, Dense())
    ensures b.Shaped() && 176 <= |HeaderBits(b.c.llens, b.c.dlens, b.blens, b.blcodes)| <= 303
  {
    hide Dense, Kraft, Pow2, TreeItems, EncodeItems, OrderBits, ToBits, BuiltFor, LLen, DLen, CanSend;
    DenseTrees(b);
    TreesShaped(b, Dense());
    var l, d := TreeItems(LBest()), TreeItems(DBest());
    Needed(b.blens);
    CodesTake(b.blens);
    assert BL_RANK[2] == 15;
    OrderSize(b.blens, b.blcodes);
    SizeConcat(b.blens, l, d);
    LItems(b.blens);
    DItems(b.blens);
  }

  // The data.

  /** What a match takes with the trees built, and with the static ones. */
  lemma TokCost(c: Codes, i: nat)
    requires i < 127 && c.llens == LBest() && c.dlens == DBest()
    ensures CanSendToken(c, Tok(i)) && (if 4 <= i < 126 then 23 else 21) <= |TokenBits(c, Tok(i))| <= 23
  {
    hide TokenBits, LSym, DSym, Tok, TokenOk, LengthCode, DCode;
    TokSymbols(i);
    IsMatch(i);
    Costs(i);
    TokSends(c, i);
    TokenSize(c, Tok(i));
  }

  lemma TokSends(c: Codes, i: nat)
    requires i < 127 && HasCode(c.llens, LAt(i)) && HasCode(c.dlens, DAt(i))
    ensures CanSendToken(c, Tok(i))
  {
    hide LengthCode, DCode, SpoiledBlock.LenOf, BaseDist, LAt, DAt;
    TokSymbols(i);
  }

  lemma Costs(i: nat)
    requires i < 127
    ensures LLen(LAt(i)) > 0 && DLen(DAt(i)) > 0
    ensures (if 4 <= i < 126 then 23 else 21) <=
      LLen(LAt(i)) + LDesc().ExtraBits(LAt(i)) + DLen(DAt(i)) + DDesc().ExtraBits(DAt(i)) <= 23
  {
    LCost(LAt(i));
    DCost(DAt(i));
  }

  lemma LCost(x: nat)
    requires 257 <= x < 286 && LLen(x) > 0
    ensures LLen(x) + LDesc().ExtraBits(x) == if x < 259 || x == 285 then 7 else 8
  {
  }

  lemma DCost(x: nat)
    requires 18 <= x < 30
    ensures DLen(x) + DDesc().ExtraBits(x) == if x < 20 then 14 else 15
  {
  }

  /** The bits before the last token, and all of them. */
  lemma DenseData(c: Codes)
    requires c.llens == LBest() && c.dlens == DBest()
    ensures |TokensBits(c, Dense()[..126])| >= 2890 && |BlockBits(c, Dense())| <= 2928
  {
    hide TokenBits, Tok, CanSendToken, TokensBits;
    var ts := Dense();
    forall i | 0 <= i < 127 ensures |TokenBits(c, ts[i])| >= (if 4 <= i < 126 then 23 else 21)
      && |TokenBits(c, ts[i])| <= 23
    {
      TokCost(c, i);
    }
    TogetherUnder(c, ts, 23);
    TogetherOver(c, ts[..4], 21);
    TogetherOver(c, ts[4..126], 23);
    assert ts[..126] == ts[..4] + ts[4..126];
    BitsConcat(c, ts[..4], ts[4..126]);
  }

  lemma StaticCost(i: nat)
    requires i < 126
    ensures |TokenBits(FixedCodes(MAX_BITS), Tok(i))| >=
      if i < 15 then 20 else if i < 31 then 26 else if i < 63 then 28 else 31
  {
    hide TokenBits, LSym, DSym, Tok, TokenOk, LengthCode, DCode;
    TokSymbols(i);
    IsMatch(i);
    LStatic(LAt(i));
    DStatic(DAt(i));
    TokSends(FixedCodes(MAX_BITS), i);
    TokenSize(FixedCodes(MAX_BITS), Tok(i));
  }

  lemma LStatic(x: nat)
    requires 257 <= x < 286
    ensures HasCode(FixedCodes(MAX_BITS).llens, x)
    ensures At(FixedCodes(MAX_BITS).llens, x) + LDesc().ExtraBits(x) >=
      if x < 273 then 7 else if x < 277 then 10 else if x < 281 then 11 else if x < 285 then 13 else 8
  {
  }

  lemma DStatic(x: nat)
    requires 18 <= x < 30
    ensures HasCode(FixedCodes(MAX_BITS).dlens, x)
    ensures At(FixedCodes(MAX_BITS).dlens, x) + DDesc().ExtraBits(x) >=
      if x < 24 then 13 else if x < 26 then 16 else if x < 28 then 17 else 18
  {
  }

  /** The static trees would take far more. */
  lemma StaticMore()
    ensures StaticSize(Dense()) >= 3565
  {
    hide TokenBits, Tok, FixedCodes, TokensBits;
    var c, ts := FixedCodes(MAX_BITS), Dense();
    forall i | 0 <= i < 126 ensures |TokenBits(c, ts[i])| >=
      if i < 15 then 20 else if i < 31 then 26 else if i < 63 then 28 else 31
    {
      StaticCost(i);
    }
    TogetherOver(c, ts[..15], 20);
    TogetherOver(c, ts[15..31], 26);
    TogetherOver(c, ts[31..63], 28);
    TogetherOver(c, ts[63..126], 31);
    assert ts[..31] == ts[..15] + ts[15..31] && ts[..63] == ts[..31] + ts[31..63]
      && ts[..126] == ts[..63] + ts[63..126];
    BitsConcat(c, ts[..15], ts[15..31]);
    BitsConcat(c, ts[..31], ts[31..63]);
    BitsConcat(c, ts[..63], ts[63..126]);
    PrefixBits(c, ts, 126);
    StaticEnd(ts);
  }

  /** The block is sent with its own trees, and its last token is overwritten before it is sent. */
  lemma DenseIsLost(b: Trees, content: Content, own: seq<Codes>)
    requires TreesFor(b, Dense()) && content == Coded(Dense())
    requires BestWay(content, own, Null, false, OwnSize(b, Dense()), StaticSize(Dense()), b.c)
    ensures own == [b.c] && !Intact(b, content, own, Dense(), 0, 128)
  {
    hide Dense, TreesFor, BlockBits, TokensBits, HeaderBits, FixedCodes, StaticSize;
    DenseTrees(b);
    DenseHeader(b);
    DenseData(b.c);
    StaticMore();
    assert |Dense()| == 127 by { DenseLength(); }
    assert !Early(b.c, Dense(), 3 + |HeaderBits(b.c.llens, b.c.dlens, b.blens, b.blcodes)|, 128, 126);
  }

  lemma DenseLength()
    ensures |Dense()| == 127
  {
  }

  /** The smallest buffer is full of them: with the default strategy `x`, which the encoder makes of them, has trees of
      its own and does not get through. */
  method LoseOwn() returns (ghost x: Sending, clean: bool)
    ensures x.tokens == Dense() && WellSent(x, false) && x.own == [x.built.c] && (clean <==> GotThrough(x, 128))
      && !clean
  {
    hide Encoder.Valid, Encoder.Separate, Encoder.Tokens, BitWriter.Sent, BitWriter.Valid, OwnSize, StaticSize, BestWay,
         TreesFor, IsStatic, BlockSent, Brings, AnyRefused, Intact, Dense, TokenOk;
    var e, slt, sdt := Deflater.NewEncoder(128);
    var w := new BitWriter();
    DenseLength();
    DenseOk();
    Collect(e, Dense());
    ghost var bits, content, own, built;
    bits, content, own, built, clean := e.FlushBlock(w, slt, sdt, Null, 0, false, 6, false);
    x := Sending(Dense(), Null, content, own, built, 0);
    DenseIsLost(built, content, own);
  }
}
