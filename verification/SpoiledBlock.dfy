/** A block that the compressor may send and the decompressor refuses: with the largest buffer, 32767 tokens whose
    literal and length code is one of those for which inflate_table finds its space used up. */
module SpoiledBlock {
  import opened Bits
  import opened BitWriter
  import opened Canonical
  import opened CodeOrder
  import opened DecodeTable
  import opened SetSum
  import opened Huffman
  import opened TreeBuild
  import opened BitLengths
  import opened BuildTree
  import opened Dyadic
  import opened Header
  import opened CodeLengths
  import opened SubTables
  import opened TableSize
  import opened TightCode
  import opened GenCodes
  import opened Tokens
  import opened Blocks
  import opened BlockEncoder
  import opened BlockSize
  import opened BlockTrees
  import opened Stream
  import opened Inflated
  import opened FlushBlock
  import opened Overlay
  import InflateTable
  import Deflater
  import Deflate

  // The lengths: those of the tight code, with one of the longest for the end of the block.

  function Lengths(): (ls: seq<nat>)
    ensures |ls| == 286
  {
    Tight()[256 := 15][284 := 11]
  }

  lemma {:induction false} CountIs(lens: seq<nat>, b: nat)
    ensures Count(lens, b) == multiset(lens)[b]
  {
    if lens != [] {
      var n := |lens| - 1;
      CountIs(lens[..n], b);
      assert lens == lens[..n] + [lens[n]];
    }
  }

  /** The order of the lengths does not matter for how many there are of each. */
  lemma SameCounts(a: seq<nat>, b: seq<nat>, v: nat)
    requires multiset(a) == multiset(b)
    ensures Count(a, v) == Count(b, v)
  {
    CountIs(a, v);
    CountIs(b, v);
  }

  lemma {:induction false} SameBelowCounts(a: seq<nat>, b: seq<nat>, v: nat)
    requires multiset(a) == multiset(b)
    ensures CountBelow(a, v) == CountBelow(b, v)
  {
    if v > 1 {
      SameBelowCounts(a, b, v - 1);
      SameCounts(a, b, v - 1);
    }
  }

  lemma {:induction false} SameLenAt(a: seq<nat>, b: seq<nat>, v: nat, j: nat)
    requires multiset(a) == multiset(b)
    ensures LenAt(a, v, j) == LenAt(b, v, j)
  {
    SameBelowCounts(a, b, v);
    if v > 1 { SameLenAt(a, b, v - 1, j); }
  }

  lemma SameByLength(a: seq<nat>, b: seq<nat>, m: nat)
    requires multiset(a) == multiset(b)
    ensures ByLength(a, m) == ByLength(b, m)
  {
    hide CountBelow, LenAt;
    SameBelowCounts(a, b, m + 1);
    forall j | 0 <= j < |ByLength(a, m)| ensures ByLength(a, m)[j] == ByLength(b, m)[j] { SameLenAt(a, b, m, j); }
  }

  lemma SwapTwo(t: seq<nat>, i: nat, j: nat)
    requires i < |t| && j < |t| && i != j
    ensures multiset(t[i := t[j]][j := t[i]]) == multiset(t)
  {
  }

  lemma Swapped()
    ensures multiset(Lengths()) == multiset(Tight())
    ensures forall x :: 0 <= x < 286 ==> 1 <= Lengths()[x] <= 15
    ensures Lengths()[0] == 1 && Lengths()[1] == 2 && Lengths()[256] == 15 && Lengths()[285] == 15
  {
    var t := Tight();
    assert t[256] == 11 && t[284] == 15;
    SwapTwo(t, 256, 284);
  }

  /** A complete code that inflate refuses. */
  lemma LengthsRefused(dlens: seq<nat>)
    ensures LensBounded(Lengths(), MAXBITS) && Kraft(Lengths(), MAXBITS) == Pow2(MAXBITS)
      && Refused(Lengths(), dlens, MAXBITS)
  {
    hide Tight, Lengths, SubSizes, Rest, ByLength, Pow2, Kraft, CountBelow;
    Swapped();
    TightSize();
    SameByLength(Lengths(), Tight(), MAXBITS);
    InflateTable.InOrder(Tight(), MAXBITS);
    InflateTable.InOrder(Lengths(), MAXBITS);
  }

  // The frequencies: the code spaces of these lengths.

  ghost predicate Spaces(f: seq<nat>) { forall x: nat :: x < 286 ==> At(f, x) == Pow2(15 - Lengths()[x]) }

  lemma SpaceAt(f: seq<nat>, x: nat)
    requires Spaces(f) && x < 286
    ensures 1 <= Lengths()[x] <= 15 && At(Lengths(), x) == Lengths()[x]
      && At(f, x) == Pow2(15 - Lengths()[x]) == Weight(Lengths(), 15)(x)
  {
    hide Lengths, Pow2;
    Swapped();
  }

  /** The lengths fill up the code space. */
  lemma LengthsFill(s: set<nat>)
    requires forall x: nat :: x in s <==> x < 286
    ensures Sum(s, Weight(Lengths(), 15)) == Pow2(15)
  {
    hide Lengths, Sum, Kraft, Pow2, Weight, LensBounded;
    Swapped();
    LengthsRefused([]);
    assert LengthsOf(Lengths(), s, Lengths());
    LengthsCount(Lengths(), s, Lengths(), 15, 1);
  }

  lemma SpacesSum(f: seq<nat>, s: set<nat>)
    requires Spaces(f) && forall x: nat :: x in s <==> x < 286
    ensures Sum(s, FreqOf(f)) == 0x8000
  {
    hide Lengths, Sum, Pow2, Weight, Spaces;
    LengthsFill(s);
    forall x | x in s ensures FreqOf(f)(x) == Weight(Lengths(), 15)(x) { SpaceAt(f, x); }
    SumAgree(s, FreqOf(f), Weight(Lengths(), 15));
    Pow2Values();
  }

  lemma SpacesMatch(f: seq<nat>, s: set<nat>)
    requires Spaces(f) && forall x: nat :: x in s <==> x < 286
    ensures Matching(s, f, Lengths(), 15) && Feasible(s, Lengths(), 15)
  {
    hide Lengths, Sum, Pow2, Weight, Spaces;
    LengthsFill(s);
    forall x | x in s ensures At(Lengths(), x) <= 15 && At(f, x) == Pow2(15 - At(Lengths(), x)) { SpaceAt(f, x); }
  }

  lemma SpacesUsed(f: seq<nat>)
    requires Spaces(f)
    ensures forall x: nat :: x in Used(f, 286) <==> x < 286
    ensures |Used(f, 286)| > 2
  {
    hide Lengths;
    Swapped();
    forall x: nat | x < 286 ensures At(f, x) != 0 { assert Pow2(15 - Lengths()[x]) >= 1; }
    Within({0, 1, 2}, Used(f, 286));
  }

  /** These frequencies can have no other lengths. */
  lemma ChosenLengths(fl: seq<nat>, l: seq<nat>)
    requires Spaces(fl) && Chosen(fl, l, LDesc()) && |l| <= 286
    ensures l == Lengths()
  {
    hide Lengths, Fitting, Used, Sum, Cost, Feasible;
    var s := Used(fl, 286);
    DescSizes();
    SpacesUsed(fl);
    SpacesMatch(fl, s);
    Swapped();
    forall l2, k {:trigger Feasible(s, l2, k)} | Feasible(s, l2, k) && Cheapest(s, fl, l2)
      ensures forall x :: x in s ==> At(l2, x) == At(Lengths(), x)
    {
      OnlyCheapest(s, fl, Lengths(), 15, l2, k);
    }
    ChosenUnique(fl, l, LDesc(), Lengths());
    assert At(l, 285) == 15;
  }

  // The tokens.

  /** A length with this code. */
  function LenOf(c: nat): nat
    requires c < 29
  {
    if c == 28 then 258 else BaseLength(c) + 3
  }

  lemma {:induction false} BasesGrow(a: nat, b: nat)
    requires a < b < 28
    ensures BaseLength(a) < BaseLength(b) < 255
    decreases b
  {
    hide BaseLength, ExtraLength;
    LengthReach(b - 1);
    LengthReach(b);
    if b < 27 { BaseSmall(b); } else { BaseSmall(27); }
    if a < b - 1 { BasesGrow(a, b - 1); }
  }

  lemma BaseSmall(c: nat)
    requires c < 28
    ensures BaseLength(c) < 255
  {
  }

  lemma CodeOfLen(c: nat)
    requires c < 29
    ensures 3 <= LenOf(c) <= 258 && LengthCode(LenOf(c) - 3) == c
  {
    hide BaseLength, LengthSearch;
    if c < 28 {
      BaseSmall(c);
      var r := LengthSearch(BaseLength(c), 27);
      LengthSearchFinds(BaseLength(c), 27);
      if r < c {
        if r + 1 < c { BasesGrow(r + 1, c); }
      } else if c < r {
        BasesGrow(c, r);
      }
    }
  }

  /** A token that takes symbol `x`. */
  function TokenFor(x: nat): Token
    requires x < 286 && x != 256
  {
    if x < 256 then Literal(x) else Match(LenOf(x - 257), 1)
  }

  lemma SymbolsOf(x: nat)
    requires x < 286 && x != 256
    ensures var t := TokenFor(x); TokenOk(t) && LSym(t) == x && (t.Match? ==> DSym(t) == 0)
  {
    hide LengthCode, LenOf;
    if x > 256 {
      CodeOfLen(x - 257);
      DistCodeFits(0);
      FirstDist();
    }
  }

  lemma FirstDist()
    ensures forall c :: 0 < c < 30 ==> BaseDist(c) > 0
  {
  }

  /** Frequency of symbol `x`. */
  function Space(x: nat): (n: nat)
    requires x < 286
    ensures n >= 1
  {
    Pow2(15 - Lengths()[x])
  }

  /** So many tokens of one symbol. */
  function TokensOf(x: nat): seq<Token>
    requires x < 286
  {
    if x == 256 then [] else seq(Space(x), _ => TokenFor(x))
  }

  /** And of each symbol below `n`. */
  function TokensBelow(n: nat): seq<Token>
    requires n <= 286
  {
    if n == 0 then [] else TokensBelow(n - 1) + TokensOf(n - 1)
  }

  lemma {:induction false} UsesConcat(a: seq<Token>, b: seq<Token>, x: nat)
    ensures LUses(a + b, x) == LUses(a, x) + LUses(b, x)
    decreases b
  {
    hide LSym;
    if b == [] {
      assert a + b == a;
    } else {
      var n := |b| - 1;
      assert (a + b)[..|a + b| - 1] == a + b[..n];
      UsesConcat(a, b[..n], x);
    }
  }

  lemma {:induction false} UsesSame(ts: seq<Token>, t: Token, x: nat)
    requires forall i :: 0 <= i < |ts| ==> ts[i] == t
    ensures LUses(ts, x) == if LSym(t) == x then |ts| else 0
    decreases ts
  {
    hide LSym;
    if ts != [] { UsesSame(ts[..|ts| - 1], t, x); }
  }

  lemma UsesOf(y: nat, x: nat)
    requires y < 286
    ensures LUses(TokensOf(y), x) == if x == y && x != 256 then Space(x) else 0
  {
    hide Space, LSym, TokenFor, LUses;
    if y == 256 {
      UsesSame([], Literal(0), x);
    } else {
      UsesSame(TokensOf(y), TokenFor(y), x);
      SymbolsOf(y);
    }
  }

  lemma {:induction false} UsesBelow(n: nat, x: nat)
    requires n <= 286 && x < 286
    ensures LUses(TokensBelow(n), x) == if x < n && x != 256 then Space(x) else 0
  {
    hide Space, TokensOf, LUses;
    if n == 0 {
      UsesSame([], Literal(0), x);
    } else {
      UsesBelow(n - 1, x);
      UsesConcat(TokensBelow(n - 1), TokensOf(n - 1), x);
      UsesOf(n - 1, x);
    }
  }

  ghost predicate Sound(t: Token) { TokenOk(t) && (t.Match? ==> DSym(t) == 0 && t.dist == 1) }

  /** They are sound, the first is a literal, and all distances are one. */
  lemma {:induction false} SoundBelow(n: nat)
    requires n <= 286
    ensures forall i :: 0 <= i < |TokensBelow(n)| ==> Sound(TokensBelow(n)[i])
    ensures n > 0 ==> TokensBelow(n) != [] && TokensBelow(n)[0].Literal?
  {
    hide Space, DSym, TokenOk, LenOf;
    if n > 0 {
      SoundBelow(n - 1);
      if n - 1 != 256 { SymbolsOf(n - 1); }
      var a, b := TokensBelow(n - 1), TokensOf(n - 1);
      assert forall i :: 0 <= i < |b| ==> Sound(b[i]);
      assert TokensBelow(n) == a + b;
      assert n == 1 ==> b[0].Literal?;
    }
  }

  lemma {:induction false} NoOtherDist(ts: seq<Token>, x: nat)
    requires (forall i :: 0 <= i < |ts| && ts[i].Match? ==> DSym(ts[i]) == 0) && x > 0
    ensures DUses(ts, x) == 0
    decreases ts
  {
    hide DSym;
    if ts != [] { NoOtherDist(ts[..|ts| - 1], x); }
  }

  /** All the tokens of the block. */
  function Block(): seq<Token> { TokensBelow(286) }

  /** What is known of the frequencies of the block. */
  lemma BlockFrequencies(fl: seq<nat>, fd: seq<nat>)
    requires Frequencies(fl, fd, Block())
    ensures Spaces(fl) && forall x: nat :: 0 < x < 30 ==> At(fd, x) == 0
  {
    hide TokensBelow, LUses, DUses, Pow2, Lengths, DSym, TokenOk;
    SoundBelow(286);
    Swapped();
    forall x: nat | x < 286 ensures At(fl, x) == Pow2(15 - Lengths()[x]) {
      UsesBelow(286, x);
      if x == 256 { LastSpace(); }
    }
    forall x: nat | 0 < x < 30 ensures At(fd, x) == 0 { NoOtherDist(Block(), x); }
  }

  lemma LastSpace()
    ensures Pow2(15 - 15) == 1
  {
  }

  /** It fits in the largest buffer, and fills it. */
  lemma BlockSizeIs()
    ensures |Block()| == 0x7fff
  {
    hide Block, Sum, FreqOf, Frequencies, TokenOk, Lengths, Priced;
    var fl := seq(286, (x: nat) => LUses(Block(), x) + if x == END_BLOCK then 1 else 0);
    var fd := seq(30, (x: nat) => DUses(Block(), x));
    assert Frequencies(fl, fd, Block()) by { Counted(fl, fd); }
    BlockFrequencies(fl, fd);
    BlockSound();
    FixedSize(Block(), fl, fd);
    SpacesSum(fl, All(286));
  }

  lemma Counted(fl: seq<nat>, fd: seq<nat>)
    requires fl == seq(286, (x: nat) => LUses(Block(), x) + if x == END_BLOCK then 1 else 0)
    requires fd == seq(30, (x: nat) => DUses(Block(), x))
    ensures Frequencies(fl, fd, Block())
  {
    hide Block, LUses, DUses;
  }

  lemma BlockSound()
    ensures forall i :: 0 <= i < |Block()| ==> TokenOk(Block()[i])
  {
    hide TokenOk, DSym, TokensBelow;
    SoundBelow(286);
  }

  // Its own trees take far fewer bits than the static ones.

  lemma {:induction false} SumAtMost(s: set<nat>, u: nat -> int, v: nat -> int)
    requires forall x :: x in s ==> u(x) <= v(x)
    ensures Sum(s, u) <= Sum(s, v)
    decreases |s|
  {
    if s != {} {
      var x :| x in s;
      SumRemove(s, u, x);
      SumRemove(s, v, x);
      SumAtMost(s - {x}, u, v);
    }
  }

  /** What the two shortest codes gain. */
  function Gain(): nat -> int { (x: nat) => if x == 0 then 15 * 0x4000 else if x == 1 then 14 * 0x2000 else 0 }

  lemma GainSum(s: set<nat>)
    requires 0 in s && 1 in s
    ensures Sum(s, Gain()) == 360448
  {
    SumTwo(s, Gain(), 0, 1);
    var none: nat -> int := (x: nat) => 0;
    SumAgree(s - {0} - {1}, Gain(), none);
    ZerosAdd({}, s - {0} - {1}, none);
  }

  lemma GainAt(f: seq<nat>, x: nat)
    requires Spaces(f) && x < 286
    ensures Bill(f, Lengths(), LDesc())(x) + Gain()(x) <= Bill(f, LDesc().stree, LDesc())(x) + 8 * FreqOf(f)(x)
  {
    hide Lengths, StaticDesc.ExtraBits, Pow2;
    Swapped();
    var e, n, st := LDesc().ExtraBits(x), At(f, x), LDesc().stree[x];
    assert 7 <= st && Lengths()[x] <= 15;
    if x < 2 {
      ShortSpaces();
      assert LDesc().ExtraBits(x) == 0 by { NoExtra(x); }
    } else {
      Dearer(Lengths()[x] + e, st + e, n);
    }
  }

  lemma Dearer(a: nat, b: nat, n: nat)
    requires a <= b + 8
    ensures Times(n, a) <= Times(n, b) + 8 * n
  {
    MulMono(a, b + 8, n);
    Distrib(b, 8, n);
  }

  lemma ShortSpaces()
    ensures Pow2(15 - 1) == 0x4000 && Pow2(15 - 2) == 0x2000
  {
  }

  lemma NoExtra(x: nat)
    requires x < 257
    ensures LDesc().ExtraBits(x) == 0
  {
  }

  lemma LiteralsGain(f: seq<nat>)
    requires Spaces(f)
    ensures Priced(f, Lengths(), LDesc()) + 98304 <= Priced(f, LDesc().stree, LDesc())
  {
    hide Lengths, Sum, Bill, FreqOf, Gain, LDesc;
    DescSizes();
    var s, a, b := All(286), Bill(f, Lengths(), LDesc()), Bill(f, LDesc().stree, LDesc());
    var ga: nat -> int := (x: nat) => a(x) + Gain()(x);
    var eight: nat -> int := (x: nat) => FreqOf(f)(x) * 8;
    var gb: nat -> int := (x: nat) => b(x) + eight(x);
    forall x | x in s ensures ga(x) <= gb(x) { GainAt(f, x); }
    SumAtMost(s, ga, gb);
    SumOfTwo(s, a, Gain(), ga);
    SumOfTwo(s, b, eight, gb);
    SumScale(s, FreqOf(f), eight, 8);
    GainSum(s);
    SpacesSum(f, s);
  }

  /** Then there are at most two symbols in all. */
  lemma TwoAtMost(f0: seq<nat>, f: seq<nat>, extra: set<nat>)
    requires Forced(f0, f, 30, extra) && forall x: nat :: 0 < x < 30 ==> At(f0, x) == 0
    ensures |Used(f, 30)| <= 2 && (At(f0, 0) > 0 ==> 0 in Used(f, 30))
  {
    if extra == {} {
      assert Used(f, 30) <= {0};
      Within(Used(f, 30), {0});
    }
    if At(f0, 0) > 0 { assert 0 in Used(f0, 30); }
  }

  /** With one distance in use its code has one bit. */
  lemma OneDistance(f0: seq<nat>, l: seq<nat>)
    requires Chosen(f0, l, DDesc()) && forall x: nat :: 0 < x < 30 ==> At(f0, x) == 0
    ensures At(f0, 0) > 0 ==> At(l, 0) == 1
  {
    hide Cheapest, TooHigh, Earned, Used, Forced, GoodLengths;
    DescSizes();
    var f, extra :| Forced(f0, f, DDesc().elems, extra) && Fitting(f, l, DDesc());
    TwoAtMost(f0, f, extra);
    if At(f0, 0) > 0 { TwoCodes(Used(f, 30), f, l, 15, 0); }
  }

  lemma DistanceGainAt(f: seq<nat>, l: seq<nat>, x: nat)
    requires x < 30 && (x > 0 ==> At(f, x) == 0) && (At(f, 0) > 0 ==> At(l, 0) == 1)
    ensures Bill(f, l, DDesc())(x) <= Bill(f, DDesc().stree, DDesc())(x)
  {
    hide StaticDesc.ExtraBits, Times;
    var e := DDesc().ExtraBits(x);
    if At(f, x) == 0 {
      TimesZero(At(l, x) + e);
      TimesZero(At(DDesc().stree, x) + e);
    } else {
      TimesMono(At(f, 0), 1 + e, 5 + e);
    }
  }

  lemma TimesMono(n: nat, a: nat, b: nat)
    requires a <= b
    ensures Times(n, a) <= Times(n, b)
  {
    MulMono(a, b, n);
  }

  lemma DistancesGain(f: seq<nat>, l: seq<nat>)
    requires (forall x: nat :: 0 < x < 30 ==> At(f, x) == 0) && (At(f, 0) > 0 ==> At(l, 0) == 1)
    ensures Priced(f, l, DDesc()) <= Priced(f, DDesc().stree, DDesc())
  {
    hide Sum, Bill, StaticDesc.ExtraBits;
    forall x | x in All(30) ensures Bill(f, l, DDesc())(x) <= Bill(f, DDesc().stree,
      DDesc())(x) { DistanceGainAt(f, l, x); }
    SumAtMost(All(30), Bill(f, l, DDesc()), Bill(f, DDesc().stree, DDesc()));
  }

  lemma {:induction false} ItemsSmall(blens: seq<nat>, items: seq<Item>)
    requires |blens| == 19 && (forall i :: 0 <= i < 19 ==> blens[i] < 8) && CanSend(blens, items)
    ensures |EncodeItems(blens, items)| <= 14 * |items|
    decreases items
  {
    if items != [] { ItemsSmall(blens, items[..|items| - 1]); }
  }

  /** The header takes at most 4495 bits. */
  lemma HeaderSmall(b: Trees)
    requires Sendable(b.c.llens, b.c.dlens, b.blens, b.blcodes, MAX_BITS)
    ensures b.Shaped() && |HeaderBits(b.c.llens, b.c.dlens, b.blens, b.blcodes)| <= 4495
  {
    hide TreeItems, EncodeItems, OrderBits, Rejected, Kraft, Pow2, CanSend;
    var items := TreeItems(b.c.llens) + TreeItems(b.c.dlens);
    var k := SomeLengthSent(b.c.llens, b.c.dlens, 256);
    ItemsSmall(b.blens, items);
    OrderSize(b.blens, b.blcodes);
  }

  /** There is a code for each symbol of the block. */
  lemma BlockCovered(b: Trees, fl: seq<nat>, fd: seq<nat>)
    requires b.c.llens == Lengths() && Frequencies(fl, fd, Block()) && (forall x: nat :: 0 < x < 30 ==> At(fd, x) == 0)
    requires At(fd, 0) > 0 ==> At(b.c.dlens, 0) == 1
    ensures CanSendAll(b.c, Block())
  {
    hide Lengths, Block, Frequencies, CanSendAll, TokenOk;
    Swapped();
    BlockSound();
    TokensCovered(b.c, Block(), fl, fd);
  }

  /** No token takes more than 21 bits. */
  lemma BlockShort(c: Codes, fl: seq<nat>, fd: seq<nat>)
    requires c.llens == Lengths() && Frequencies(fl, fd, Block()) && (forall x: nat :: 0 < x < 30 ==> At(fd, x) == 0)
    requires (At(fd, 0) > 0 ==> At(c.dlens, 0) == 1) && CanSendAll(c, Block())
    ensures TokensUnder(c, Block(), 21)
  {
    hide Lengths, Block, TokenBits, DSym, LSym, DUses, LUses, CanSendToken;
    var ts := Block();
    Swapped();
    forall i | 0 <= i < |ts| ensures |TokenBits(c, ts[i])| <= 21 {
      TokenSize(c, ts[i]);
      if ts[i].Match? { OccursD(ts, i); }
      FewExtraBits(0, 0);
      LengthExtra(LSym(ts[i]));
    }
  }

  lemma LengthExtra(x: nat)
    requires x < 286
    ensures LDesc().ExtraBits(x) <= 5 && DDesc().ExtraBits(0) == 0
  {
  }

  /** So the trees of this block are sent with it, and are refused. */
  lemma TreesOfBlock(b: Trees)
    requires TreesFor(b, Block())
    ensures b.c.llens == Lengths() && OwnSize(b, Block()) + 90000 <= StaticSize(Block())
      && OwnIntact(b, Block(), 0, 0x8000)
  {
    hide Lengths, Block, Frequencies, CanSendAll, TokenOk, Chosen, Priced, HeaderBits, BlockBits, Kraft, Pow2, LDesc,
         DDesc, FixedCodes, Sum, FreqOf;
    var fl, fd :| Frequencies(fl, fd, Block()) && Chosen(fl, b.c.llens, LDesc()) && Chosen(fd, b.c.dlens, DDesc());
    BlockFrequencies(fl, fd);
    HeaderSmall(b);
    ChosenLengths(fl, b.c.llens);
    OneDistance(fd, b.c.dlens);
    BlockCovered(b, fl, fd);
    TokensSize(b.c, Block(), fl, fd);
    BlockSound();
    FixedSize(Block(), fl, fd);
    LiteralsGain(fl);
    DistancesGain(fd, b.c.dlens);
    BlockShort(b.c, fl, fd);
    BlockSizeIs();
    ShortGetThrough(b.c, Block(), 21, 3 + |HeaderBits(b.c.llens, b.c.dlens, b.blens, b.blcodes)|, 0x8000);
  }

  /** A block with refused trees makes a stream fail. */
  lemma FailsAtOnce(bs: seq<bool>, c: Codes, m: nat, w: nat)
    requires OwnTrees(bs, m) == [c] && Refused(c.llens, c.dlens, c.m)
    ensures Inflate(false, [], bs, m, w) == Failed([])
  {
    hide ReadHeader, Refused, Body, Value;
  }

  /** All tokens can be read back from the bits, but the decoder refuses the trees in them. */
  ghost predicate Spoiling(bs: seq<bool>, tokens: seq<Token>)
  {
    && ReadAny(bs, 0, MAX_BITS).Ok? && ReadAny(bs, 0, MAX_BITS).value == (true, Coded(tokens))
    && AnyRefused(TreesIn(bs, 0, MAX_BITS)) && Inflate(false, [], bs, MAX_BITS, 0x8000) == Failed([])
  }

  lemma IsSpoiling(bits: seq<bool>, content: Content, own: seq<Codes>, b: Trees, pad: seq<bool>)
    requires content == Coded(Block()) && TreesFor(b, Block())
    requires Intact(b, content, own, Block(), 0, 0x8000) ==>
      BlockSent(bits, true, content, 0, MAX_BITS) && Brings(bits, own, MAX_BITS)
    requires BestWay(content, own, Null, false, OwnSize(b, Block()), StaticSize(Block()), b.c)
    ensures Spoiling(bits + pad, Block())
  {
    hide Block, TreesIn, OwnTrees, ReadAny, Refused, OwnSize, StaticSize, Inflate, TreesFor, AnyRefused, OwnIntact,
         Unharmed;
    ForMax(b, Block());
    TreesOfBlock(b);
    LengthsRefused(b.c.dlens);
    assert own == [b.c];
    RefusedOne(b.c);
    TreesAfter(bits, true, content, own, pad, 0, MAX_BITS);
    assert own + [] == own;
    FailsAtOnce(bits + pad, b.c, MAX_BITS, 0x8000);
  }

  /** A stream of one block, collected in the largest buffer and sent by the rules. */
  method Spoil() returns (packed: seq<Byte>)
    ensures Spoiling(BytesToBits(packed), Block())
  {
    hide Encoder.Separate, Encoder.Tokens, Frequencies, TokenOk, BitWriter.Sent, BitWriter.Valid, Block, Spoiling,
         OwnSize, StaticSize, BlockSent, Brings, BestWay, TreesFor, IsStatic, ToBits, BytesToBits, AnyRefused, Intact;
    var e, slt, sdt := Deflater.NewEncoder(0x8000);
    var w := new BitWriter();
    BlockSizeIs();
    BlockSound();
    Collect(e, Block());
    ghost var bits, content, own, built;
    var clean;
    bits, content, own, built, clean := e.FlushBlock(w, slt, sdt, Null, 0, true, 6, false);
    packed := w.pending;
    ghost var pad := ToBits(0, Padding(|[] + bits|));
    Deflate.WholeBytes(w);
    assert [] + bits == bits;
    IsSpoiling(bits, content, own, built, pad);
  }
}
