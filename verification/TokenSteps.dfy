/** One step of decoding a token, when the table entry or the field it starts with is at hand. */
module TokenSteps {
  import opened Bits
  import opened BitWriter
  import opened Canonical
  import opened DecodeTable
  import opened InflateTable
  import opened Header
  import opened Tokens
  import opened Blocks
  import opened Inflated
  import opened SymbolReader

  const WSIZE := 0x8000

  /** A field that is there can be taken before more input comes. */
  lemma FieldAhead(bs: seq<bool>, future: seq<bool>, n: nat)
    requires n <= |bs|
    ensures Field(bs + future, n) == Ok(Value(bs[..n]), bs[n..] + future)
      && (n == 0 ==> Value(bs[..n]) == 0 && bs[n..] == bs)
  {
    assert (bs + future)[..n] == bs[..n] && (bs + future)[n..] == bs[n..] + future;
  }

  lemma BodyStep(last: bool, c: Codes, hist: seq<Byte>, bs: seq<bool>, w: nat)
    ensures Body(last, c, hist, bs, w) == AfterStep(last, c, hist, ReadStep(c, bs), w)
  {
  }

  lemma AfterBad(last: bool, c: Codes, hist: seq<Byte>, w: nat)
    ensures AfterStep(last, c, hist, Bad, w) == Failed(hist)
  {
  }

  lemma AfterEnd(last: bool, c: Codes, hist: seq<Byte>, rest: seq<bool>, w: nat)
    ensures AfterStep(last, c, hist, Ok(EndOfBlock, rest), w) == Inflate(last, hist, rest, c.m, w)
  {
  }

  lemma AfterLit(last: bool, c: Codes, hist: seq<Byte>, b: Byte, rest: seq<bool>, w: nat)
    ensures AfterStep(last, c, hist, Ok(Tok(Literal(b)), rest), w) == Body(last, c, hist + [b], rest, w)
  {
  }

  /** A length base and the longest length it reaches. */
  lemma LengthBase(s: nat)
    requires 257 <= s < 286
    ensures var a := SymbolAction(LENS, s);
      16 <= a.op <= 21 && a.val >= 3 && a.val + Pow2(a.op - 16) <= 259
  {
    hide BaseLength, ExtraLength;
    SmallPowers();
    LengthTablesAgree(s - 257);
    LengthLast();
    if s < 285 { LengthReach(s - 257); LengthMono(s - 257); }
  }

  lemma LengthLast()
    ensures ExtraLength(28) == 0
  {
  }

  lemma LengthMono(c: nat)
    requires c < 28
    ensures c < 27 ==> BaseLength(c + 1) <= 256
  {
  }

  lemma LengthAction(s: nat)
    requires s < 288
    ensures var a := SymbolAction(LENS, s);
      && (a.op == 0 ==> a.val < 256)
        && (KindOf(a).KBase? ==> a.val >= 3 && a.op % 16 <= 5 && a.val + Pow2(a.op % 16) <= 259)
      && (a.op != 0 ==> ((a.op / 16) % 2 == 1 <==> KindOf(a).KBase?))
  {
    hide Pow2;
    if 257 <= s < 286 {
      hide SymbolAction;
      LengthBase(s);
    }
  }

  /** The entry found says what the next step is. */
  lemma LenTaken(c: Codes, t: seq<Entry>, root: nat, here: Entry, bs: seq<bool>, bs2: seq<bool>, future: seq<bool>)
    requires TableFor(LENS, c.llens, c.m, t, root) && Took(LENS, c.llens, c.m, here, bs, bs2)
    ensures ReadStep(c, bs + future) == match KindOf(Action(here.op, here.val))
      case KLit(val) => if val < 256 then Ok(Tok(Literal(val)), bs2 + future) else Bad
      case KEnd => Ok(EndOfBlock, bs2 + future)
      case KInvalid => Bad
      case KBase(base, extra) => ReadMatch(c, bs2 + future, base, extra)
    ensures here.op == 0 ==> here.val < 256
    ensures KindOf(Action(here.op, here.val)).KBase? ==>
      here.val >= 3 && here.op % 16 <= 5 && here.val + Pow2(here.op % 16) <= 259
    ensures here.op != 0 ==> ((here.op / 16) % 2 == 1 <==> KindOf(Action(here.op, here.val)).KBase?)
  {
    hide TableFor, NextSymbol, SymbolAction, ReadMatch;
    NextStable(LENS, c.llens, c.m, t, root, bs, future);
    match NextSymbol(c.llens, c.m, bs)
    case Sym(s) =>
      LengthAction(s);
      assert (bs + future)[c.llens[s]..] == bs2 + future;
    case Invalid =>
  }

  lemma NotBase(bs: seq<bool>, len: nat)
    ensures ReadDistExtra(bs, len, KInvalid) == Bad
  {
  }

  /** Distance entries are bases, or invalid. */
  lemma DistAction(s: nat)
    requires s < 32
    ensures var a := SymbolAction(DISTS, s);
      && DistKind(s) == (if (a.op / 64) % 2 == 1 then KInvalid else KBase(a.val, a.op % 16))
      && ((a.op / 64) % 2 == 0 ==> a.val >= 1 && a.op % 16 <= 13 && a.val + Pow2(a.op % 16) <= WSIZE + 1)
      && ((a.op / 16) % 2 == 1 <==> (a.op / 64) % 2 == 0)
  {
    SmallPowers();
    if s < 30 { DistKindIs(s); DistTablesAgree(s); DistReach(s); }
  }

  lemma DistTaken(c: Codes, t: seq<Entry>, root: nat, here: Entry, bs: seq<bool>, bs2: seq<bool>, future: seq<bool>,
                  len: nat)
    requires TableFor(DISTS, c.dlens, c.m, t, root) && Took(DISTS, c.dlens, c.m, here, bs, bs2)
    ensures ReadDist(c, bs + future, len) ==
      if (here.op / 64) % 2 == 1 then Bad else ReadDistExtra(bs2 + future, len, KBase(here.val, here.op % 16))
    ensures (here.op / 64) % 2 == 0 ==>
      here.val >= 1 && here.op % 16 <= 13 && here.val + Pow2(here.op % 16) <= WSIZE + 1
    ensures (here.op / 16) % 2 == 1 <==> (here.op / 64) % 2 == 0
  {
    hide TableFor, NextSymbol, SymbolAction, ReadDistExtra;
    NextStable(DISTS, c.dlens, c.m, t, root, bs, future);
    match NextSymbol(c.dlens, c.m, bs)
    case Sym(s) =>
      DistAction(s);
      assert (bs + future)[c.dlens[s]..] == bs2 + future;
      NotBase(bs2 + future, len);
    case Invalid =>
  }
}
