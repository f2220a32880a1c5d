/** How many bits a block takes, as frequencies times code lengths: what trees.c predicts before sending. */
module BlockSize {
  import opened Bits
  import opened SetSum
  import opened Huffman
  import opened TreeBuild
  import opened BitLengths
  import opened CodeLengths
  import opened Header
  import opened Tokens
  import opened Blocks

  /** The symbols below `n`. */
  ghost function All(n: nat): (s: set<nat>)
    ensures forall x: nat :: x in s <==> x < n
  {
    if n == 0 then {} else All(n - 1) + {n - 1}
  }

  /** Total over all symbols of frequency times length, code and extra bits. */
  ghost function Priced(f: seq<nat>, l: seq<nat>, desc: StaticDesc): int { Sum(All(desc.elems), Bill(f, l, desc)) }

  lemma {:induction false} ZerosAdd(s: set<nat>, all: set<nat>, w: nat -> int)
    requires s <= all && forall x :: x in all && x !in s ==> w(x) == 0
    ensures Sum(all, w) == Sum(s, w)
    decreases |all - s|
  {
    if all - s == {} {
      assert all == s;
    } else {
      var x :| x in all - s;
      SumRemove(all, w, x);
      assert all - {x} - s == all - s - {x};
      ZerosAdd(s, all - {x}, w);
    }
  }

  lemma TimesZero(n: nat)
    ensures Times(0, n) == 0
  {
  }

  /** Symbols of frequency zero take nothing. */
  lemma UsedPriced(f: seq<nat>, l: seq<nat>, desc: StaticDesc)
    ensures Sum(Used(f, desc.elems), Bill(f, l, desc)) == Priced(f, l, desc)
    ensures Sum(Used(f, desc.elems), FreqOf(f)) == Sum(All(desc.elems), FreqOf(f))
  {
    hide Sum, Times, StaticDesc.ExtraBits;
    forall x | x in All(desc.elems) && x !in Used(f, desc.elems) ensures Bill(f, l, desc)(x) == 0 && FreqOf(f)(x) == 0 {
      TimesZero(At(l, x) + desc.ExtraBits(x));
    }
    ZerosAdd(Used(f, desc.elems), All(desc.elems), Bill(f, l, desc));
    ZerosAdd(Used(f, desc.elems), All(desc.elems), FreqOf(f));
  }

  /** One more use of symbol `s`. */
  ghost predicate Bumped(f: seq<nat>, f2: seq<nat>, n: nat, s: nat)
  {
    s < n && forall x: nat :: x < n ==> At(f2, x) == At(f, x) + if x == s then 1 else 0
  }

  lemma OneMore(a: nat, b: nat)
    ensures Times(a + 1, b) == Times(a, b) + b
  {
    Distrib(a, 1, b);
  }

  lemma BumpedPriced(f: seq<nat>, f2: seq<nat>, l: seq<nat>, desc: StaticDesc, s: nat)
    requires Bumped(f, f2, desc.elems, s)
    ensures Priced(f2, l, desc) == Priced(f, l, desc) + At(l, s) + desc.ExtraBits(s)
    ensures Sum(All(desc.elems), FreqOf(f2)) == Sum(All(desc.elems), FreqOf(f)) + 1
  {
    hide Sum, Times, StaticDesc.ExtraBits;
    var a := All(desc.elems);
    SumRemove(a, Bill(f, l, desc), s);
    SumRemove(a, Bill(f2, l, desc), s);
    SumAgree(a - {s}, Bill(f, l, desc), Bill(f2, l, desc));
    OneMore(At(f, s), At(l, s) + desc.ExtraBits(s));
    SumRemove(a, FreqOf(f), s);
    SumRemove(a, FreqOf(f2), s);
    SumAgree(a - {s}, FreqOf(f), FreqOf(f2));
  }

  lemma NothingPriced(f: seq<nat>, l: seq<nat>, desc: StaticDesc)
    requires forall x: nat :: x < desc.elems ==> At(f, x) == 0
    ensures Priced(f, l, desc) == 0 && Sum(All(desc.elems), FreqOf(f)) == 0
  {
    hide Times, StaticDesc.ExtraBits;
    forall x | x in All(desc.elems) ensures Bill(f, l, desc)(x) == 0 { TimesZero(At(l, x) + desc.ExtraBits(x)); }
    ZerosAdd({}, All(desc.elems), Bill(f, l, desc));
    ZerosAdd({}, All(desc.elems), FreqOf(f));
  }

  lemma SamePriced(f: seq<nat>, f2: seq<nat>, l: seq<nat>, l2: seq<nat>, desc: StaticDesc)
    requires forall x: nat :: x < desc.elems ==> At(f, x) == At(f2, x) && At(l, x) == At(l2, x)
    ensures Priced(f, l, desc) == Priced(f2, l2, desc)
    ensures Sum(All(desc.elems), FreqOf(f)) == Sum(All(desc.elems), FreqOf(f2))
  {
    SumAgree(All(desc.elems), Bill(f, l, desc), Bill(f2, l2, desc));
    SumAgree(All(desc.elems), FreqOf(f), FreqOf(f2));
  }

  // The three kinds of trees.

  const EXTRA_BLBITS: seq<nat> := [0, 0, 0, 0, 0, 0, 0, 0, 0, 0, 0, 0, 0, 0, 0, 0, 2, 3, 7]

  /** Static literal and length codes (section 3.2.6 of RFC 1951). */
  function StaticLen(s: nat): nat { if s < 144 then 8 else if s < 256 then 9 else if s < 280 then 7 else 8 }

  function StaticLens(n: nat): (l: seq<nat>)
    ensures |l| == n && forall s :: 0 <= s < n ==> l[s] == StaticLen(s)
  {
    seq(n, s => if s >= 0 then StaticLen(s) else 0)
  }

  function Fives(n: nat): (l: seq<nat>)
    ensures |l| == n && forall s :: 0 <= s < n ==> l[s] == 5
  {
    seq(n, _ => 5)
  }

  function LDesc(): StaticDesc { StaticDesc(StaticLens(286), EXTRA_LBITS, 257, 286, 15) }
  function DDesc(): StaticDesc { StaticDesc(Fives(30), EXTRA_DBITS, 0, 30, 15) }
  function BlDesc(): StaticDesc { StaticDesc([], EXTRA_BLBITS, 0, 19, 7) }

  lemma DescsValid()
    ensures LDesc().Valid() && DDesc().Valid() && BlDesc().Valid()
  {
    Pow2Mono(9, 15);
    Pow2Mono(5, 7);
    SmallPowers();
  }

  // Literals and matches.

  /** Symbol of a token in the literal and length alphabet. */
  function LSym(t: Token): nat
  {
    match t
    case Literal(b) => b
    case Match(len, _) => if MIN_MATCH <= len <= MAX_MATCH then LengthCode(len - 3) + 257 else 0
  }

  /** Symbol of a match in the distance alphabet. */
  function DSym(t: Token): nat
    requires t.Match?
  {
    if 1 <= t.dist <= 0x8000 then DCode(t.dist - 1) else 0
  }

  /** `fl` and `fd` count the symbols of the tokens, and one end of block. */
  ghost predicate Frequencies(fl: seq<nat>, fd: seq<nat>, tokens: seq<Token>)
  {
    && (forall x: nat :: x < 286 ==> At(fl, x) == LUses(tokens, x) + if x == END_BLOCK then 1 else 0)
    && (forall x: nat :: x < 30 ==> At(fd, x) == DUses(tokens, x))
  }

  function LUses(tokens: seq<Token>, x: nat): nat
  {
    if tokens == [] then 0 else LUses(tokens[..|tokens| - 1], x) + if LSym(tokens[|tokens| - 1]) == x then 1 else 0
  }

  function DUses(tokens: seq<Token>, x: nat): nat
  {
    if tokens == [] then 0
    else
      var t := tokens[|tokens| - 1];
      DUses(tokens[..|tokens| - 1], x) + if t.Match? && DSym(t) == x then 1 else 0
  }

  lemma TokenSize(c: Codes, t: Token)
    requires CanSendToken(c, t)
    ensures |TokenBits(c, t)| == At(c.llens, LSym(t)) + LDesc().ExtraBits(LSym(t))
      + if t.Match? then At(c.dlens, DSym(t)) + DDesc().ExtraBits(DSym(t)) else 0
    ensures LSym(t) < 286 && LSym(t) != END_BLOCK && (t.Match? ==> DSym(t) < 30)
  {
    hide LengthCode, DCode;
    if t.Match? {
      LengthCodeFits(t.len - 3);
      DistCodeFits(t.dist - 1);
    }
  }

  lemma TokenBumps(fl: seq<nat>, fd: seq<nat>, tokens: seq<Token>, t: Token, fl2: seq<nat>, fd2: seq<nat>)
    requires Frequencies(fl, fd, tokens) && LSym(t) < 286 && (t.Match? ==> DSym(t) < 30)
    requires Bumped(fl, fl2, 286, LSym(t))
    requires if t.Match? then Bumped(fd, fd2, 30, DSym(t)) else fd2 == fd
    ensures Frequencies(fl2, fd2, tokens + [t])
  {
    hide LSym, DSym;
    assert (tokens + [t])[..|tokens|] == tokens;
  }

  /** Frequencies without the last token. */
  ghost function Unbump(f: seq<nat>, n: nat, s: nat): (r: seq<nat>)
    requires s < n && At(f, s) > 0
    ensures Bumped(r, f, n, s)
  {
    f[s := f[s] - 1]
  }

  /** The bits of the tokens are what their frequencies predict. */
  lemma {:induction false} TokensSize(c: Codes, tokens: seq<Token>, fl: seq<nat>, fd: seq<nat>)
    requires CanSendAll(c, tokens) && Frequencies(fl, fd, tokens)
    ensures |BlockBits(c, tokens)| == Priced(fl, c.llens, LDesc()) + Priced(fd, c.dlens, DDesc())
    ensures Sum(All(286), FreqOf(fl)) == |tokens| + 1 && Sum(All(30), FreqOf(fd)) <= |tokens|
    decreases tokens
  {
    hide TokenBits, CanSendToken, LSym, DSym, Priced, Sum, FreqOf, LDesc, DDesc;
    var l, d := LDesc(), DDesc();
    DescSizes();
    if tokens == [] {
      var none := Unbump(fl, 286, END_BLOCK);
      BumpedPriced(none, fl, c.llens, l, END_BLOCK);
      NothingPriced(none, c.llens, l);
      NothingPriced(fd, c.dlens, d);
    } else {
      var n := |tokens| - 1;
      var t, tokens' := tokens[n], tokens[..n];
      TokenSize(c, t);
      var fl' := Unbump(fl, 286, LSym(t));
      BumpedPriced(fl', fl, c.llens, l, LSym(t));
      var fd' := if t.Match? then Unbump(fd, 30, DSym(t)) else fd;
      if t.Match? { BumpedPriced(fd', fd, c.dlens, d, DSym(t)); }
      TokensSize(c, tokens', fl', fd');
    }
  }

  lemma DescSizes()
    ensures LDesc().elems == 286 && DDesc().elems == 30 && LDesc().ExtraBits(END_BLOCK) == 0
  {
  }

  // The header of a block with dynamic trees.

  lemma BlExtra(sym: nat)
    ensures BlDesc().elems == 19 && BlDesc().ExtraBits(sym) == CodeLengths.ExtraBits(sym)
  {
  }

  lemma {:induction false} ItemsSize(blens: seq<nat>, items: seq<Item>, f: seq<nat>)
    requires CanSend(blens, items) && forall x: nat :: x < 19 ==> At(f, x) == Uses(items, x)
    ensures |EncodeItems(blens, items)| == Priced(f, blens, BlDesc()) && Sum(All(19), FreqOf(f)) == |items|
    decreases items
  {
    hide Priced, Sum, FreqOf, BlDesc, StaticDesc.ExtraBits, CodeLengths.ExtraBits;
    BlExtra(0);
    if items == [] {
      NothingPriced(f, blens, BlDesc());
    } else {
      var n := |items| - 1;
      var it := items[n];
      BlExtra(it.sym);
      assert ItemOk(it);
      var f' := Unbump(f, 19, it.sym);
      BumpedPriced(f', f, blens, BlDesc(), it.sym);
      ItemsSize(blens, items[..n], f');
    }
  }

  lemma {:induction false} OrderSize(blens: seq<nat>, k: nat)
    requires |blens| == 19 && k <= 19
    ensures |OrderBits(blens, k)| == 3 * k
  {
    OrderIsPermutation();
    if k > 0 { OrderSize(blens, k - 1); }
  }

  /** Counts, bit length codes and the two coded trees. */
  lemma HeaderSize(llens: seq<nat>, dlens: seq<nat>, blens: seq<nat>, blcodes: nat, f: seq<nat>)
    requires |llens| >= 257 && |dlens| >= 1 && 4 <= blcodes <= 19 == |blens|
      && CanSend(blens, TreeItems(llens) + TreeItems(dlens))
    requires forall x: nat :: x < 19 ==> At(f, x) == Uses(TreeItems(llens) + TreeItems(dlens), x)
    ensures |HeaderBits(llens, dlens, blens, blcodes)| == 3 * blcodes + 5 + 5 + 4 + Priced(f, blens, BlDesc())
  {
    hide TreeItems, Priced, EncodeItems, OrderBits;
    OrderSize(blens, blcodes);
    ItemsSize(blens, TreeItems(llens) + TreeItems(dlens), f);
  }

  /** Trees that are not all zero need a nonzero length sent. */
  lemma {:induction false} OnlyRepeats(have: seq<nat>, items: seq<Item>, limit: nat)
    requires (forall i :: 0 <= i < |items| ==> items[i].sym == 0 || items[i].sym >= 16)
    requires (forall i :: 0 <= i < |have| ==> have[i] == 0) && ApplyAll(have, items, limit).Lens?
    ensures var r := ApplyAll(have, items, limit).have; forall i :: 0 <= i < |r| ==> r[i] == 0
    decreases items
  {
    if items != [] { OnlyRepeats(Apply(have, items[0], limit).have, items[1..], limit); }
  }

  lemma SomeLengthSent(llens: seq<nat>, dlens: seq<nat>, s: nat) returns (k: nat)
    requires forall i :: 0 <= i < |llens| ==> llens[i] < 16
    requires forall i :: 0 <= i < |dlens| ==> dlens[i] < 16
    requires s < |llens| && llens[s] > 0
    ensures var items := TreeItems(llens) + TreeItems(dlens); k < |items| && 1 <= items[k].sym < 16
    ensures |TreeItems(llens) + TreeItems(dlens)| <= |llens| + |dlens|
  {
    hide ApplyAll;
    var items := TreeItems(llens) + TreeItems(dlens);
    var limit := |llens| + |dlens|;
    TreesRoundTrip(llens, dlens);
    ApplyGrows([], items, limit);
    assert (llens + dlens)[s] == llens[s];
    if forall i :: 0 <= i < |items| ==> items[i].sym == 0 || items[i].sym >= 16 { OnlyRepeats([], items, limit); }
    k :| 0 <= k < |items| && !(items[k].sym == 0 || items[k].sym >= 16);
  }
}
