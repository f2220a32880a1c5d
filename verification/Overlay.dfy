/** deflate.c, trees.c: tokens are kept in the memory that the output of their block is put in. When every token is sent
    before the output gets there. */
module Overlay {
  import opened Bits
  import opened GenCodes
  import opened Huffman
  import opened BitLengths
  import opened Header
  import opened Tokens
  import opened Blocks
  import opened BlockEncoder
  import opened BlockSize
  import opened Inflated
  import opened Stream
  import opened StaticTrees
  import opened FlushBlock

  /** The tokens of all blocks. */
  ghost function AllTokens(blocks: seq<Sending>): seq<Token>
  {
    if blocks == [] then [] else AllTokens(blocks[..|blocks| - 1]) + blocks[|blocks| - 1].tokens
  }

  /** All blocks got through. */
  ghost predicate AllThrough(blocks: seq<Sending>, size: nat)
  {
    forall i :: 0 <= i < |blocks| ==> GotThrough(blocks[i], size)
  }

  /** A block of a compressor whose buffer has room for `size` tokens, with matches no further back than `reach`. */
  ghost predicate Proper(x: Sending, fixed: bool, size: nat, reach: nat)
  {
    WellSent(x, fixed) && |x.tokens| < size && Near(x.tokens, reach)
  }

  ghost predicate AllProper(blocks: seq<Sending>, fixed: bool, size: nat, reach: nat)
  {
    forall i :: 0 <= i < |blocks| ==> Proper(blocks[i], fixed, size, reach)
  }

  /** One more block. */
  lemma OneMoreBlock(blocks: seq<Sending>, x: Sending, fixed: bool, size: nat, reach: nat)
    ensures AllTokens(blocks + [x]) == AllTokens(blocks) + x.tokens
    ensures AllThrough(blocks + [x], size) <==> AllThrough(blocks, size) && GotThrough(x, size)
    ensures AllProper(blocks, fixed, size, reach) && Proper(x, fixed, size, reach) ==>
      AllProper(blocks + [x], fixed, size, reach)
  {
    hide GotThrough, Proper;
    var more := blocks + [x];
    assert more[..|blocks|] == blocks && more[|blocks|] == x;
    assert AllThrough(more, size) ==> forall i :: 0 <= i < |blocks| ==> GotThrough(more[i], size);
  }

  lemma {:induction false} TokensOfBlock(blocks: seq<Sending>, i: nat)
    requires i < |blocks|
    ensures |blocks[i].tokens| <= |AllTokens(blocks)|
  {
    if i < |blocks| - 1 { TokensOfBlock(blocks[..|blocks| - 1], i); }
  }

  /** The bits a token takes with the static trees. */
  lemma StaticToken(t: Token, most: nat)
    requires TokenOk(t) && (t.Match? ==> DDesc().ExtraBits(DSym(t)) <= most)
    ensures |TokenBits(FixedCodes(MAX_BITS), t)| <= 18 + most
  {
    hide LSym, DSym, StaticDesc.ExtraBits;
    assert forall i :: 0 <= i < 1 ==> TokenOk([t][i]);
    FixedSendsAll([t], MAX_BITS);
    assert CanSendToken(FixedCodes(MAX_BITS), [t][0]);
    TokenSize(FixedCodes(MAX_BITS), t);
    StaticLengthCost(LSym(t));
  }

  lemma StaticLengthCost(x: nat)
    requires x < 286
    ensures At(StaticLens(288), x) + LDesc().ExtraBits(x) <= 13
  {
  }

  ghost predicate TokensUnder(c: Codes, tokens: seq<Token>, most: nat)
  {
    forall i :: 0 <= i < |tokens| ==> |TokenBits(c, tokens[i])| <= most
  }

  /** All the tokens together. */
  lemma {:induction false} TogetherUnder(c: Codes, tokens: seq<Token>, most: nat)
    requires TokensUnder(c, tokens, most)
    ensures |TokensBits(c, tokens)| <= most * |tokens|
  {
    hide TokenBits;
    if tokens != [] {
      var n := |tokens| - 1;
      TogetherUnder(c, tokens[..n], most);
      Distrib(n, 1, most);
    }
  }

  /** Short tokens never fall behind the output. */
  lemma ShortGetThrough(c: Codes, tokens: seq<Token>, most: nat, head: int, size: nat)
    requires most >= 16 && TokensUnder(c, tokens, most) && head + (most - 16) * |tokens| <= 8 * size + 16
    ensures Unharmed(c, tokens, head, size)
  {
    hide TokensBits, TokenBits;
    forall i | 0 <= i < |tokens| ensures Early(c, tokens, head, size, i) {
      TogetherUnder(c, tokens[..i], most);
      Distrib(most - 16, 16, i);
      MulMono(i, |tokens|, most - 16);
    }
  }

  lemma FewExtra(t: Token)
    requires TokenOk(t) && t.Match?
    ensures DDesc().ExtraBits(DSym(t)) <= 13 && (t.dist <= 256 ==> DDesc().ExtraBits(DSym(t)) <= 6)
  {
    hide DistSearch;
    if t.dist <= 256 {
      DistSearchFinds(t.dist - 1, 29);
    }
    FarBases(DSym(t));
  }

  lemma FarBases(c: nat)
    requires c < 30
    ensures DDesc().ExtraBits(c) <= 13 && if c < 16 then DDesc().ExtraBits(c) <= 6 else BaseDist(c) >= 256
  {
  }

  lemma StaticUnder(tokens: seq<Token>)
    requires forall i :: 0 <= i < |tokens| ==> TokenOk(tokens[i])
    ensures TokensUnder(FixedCodes(MAX_BITS), tokens, 31)
    ensures Near(tokens, 256) ==> TokensUnder(FixedCodes(MAX_BITS), tokens, 24)
  {
    hide TokenBits, FixedCodes, TokenOk, StaticDesc.ExtraBits, DSym;
    forall i | 0 <= i < |tokens|
      ensures |TokenBits(FixedCodes(MAX_BITS), tokens[i])| <= 31
      ensures Near(tokens, 256) ==> |TokenBits(FixedCodes(MAX_BITS), tokens[i])| <= 24
    {
      if tokens[i].Match? { FewExtra(tokens[i]); }
      StaticToken(tokens[i], 13);
      if Near(tokens, 256) { StaticToken(tokens[i], 6); }
    }
  }

  /** With the fixed strategy, blocks get through if no match reaches back further than 256 bytes. */
  lemma FixedThrough(x: Sending, size: nat)
    requires Proper(x, true, size, 256)
    ensures GotThrough(x, size)
  {
    hide TreesFor, TokenOk, Unharmed, OwnSize, StaticSize, FixedCodes, TokensUnder;
    StaticUnder(x.tokens);
    ShortGetThrough(FixedCodes(MAX_BITS), x.tokens, 24, x.held + 3, size);
  }

  /** Blocks that fill less than a quarter of the buffer get through. */
  lemma FewThrough(x: Sending, fixed: bool, size: nat)
    requires WellSent(x, fixed) && 4 * |x.tokens| < size
    ensures GotThrough(x, size)
  {
    hide TreesFor, TokenOk, FixedCodes, HeaderBits, TokensBits, TokensUnder;
    var c := if x.own == [] then FixedCodes(MAX_BITS) else x.built.c;
    StaticUnder(x.tokens);
    TogetherUnder(FixedCodes(MAX_BITS), x.tokens, 31);
    StaticEnd(x.tokens);
    TreesShaped(x.built, x.tokens);
    forall i | 0 <= i < |x.tokens| ensures |TokensBits(c, x.tokens[..i])| <= |TokensBits(c, x.tokens)| {
      PrefixBits(c, x.tokens, i);
    }
  }

  lemma StaticEnd(tokens: seq<Token>)
    ensures StaticSize(tokens) == |TokensBits(FixedCodes(MAX_BITS), tokens)| + 7
  {
    hide TokensBits;
  }

  lemma TreesShaped(b: Trees, tokens: seq<Token>)
    requires TreesFor(b, tokens)
    ensures b.Shaped()
  {
    FourSent(b.c.llens, b.c.dlens, b.blens, b.blcodes);
  }

  lemma {:induction false} PrefixBits(c: Codes, tokens: seq<Token>, i: nat)
    requires i <= |tokens|
    ensures |TokensBits(c, tokens[..i])| <= |TokensBits(c, tokens)|
    decreases |tokens|
  {
    hide TokenBits;
    if i == |tokens| {
      assert tokens[..i] == tokens;
    } else {
      var n := |tokens| - 1;
      assert tokens[..n][..i] == tokens[..i];
      PrefixBits(c, tokens[..n], i);
    }
  }

  lemma {:induction false} BitsConcat(c: Codes, a: seq<Token>, b: seq<Token>)
    ensures |TokensBits(c, a + b)| == |TokensBits(c, a)| + |TokensBits(c, b)|
    decreases b
  {
    hide TokenBits;
    if b == [] {
      assert a + b == a;
    } else {
      var n := |b| - 1;
      assert (a + b)[..|a + b| - 1] == a + b[..n];
      BitsConcat(c, a, b[..n]);
    }
  }
}
