/** trees.c: blocks whose tokens are overwritten by their own output before they are sent. */
module LostTokens {
  import opened Bits
  import opened BitWriter
  import opened GenCodes
  import opened Huffman
  import opened BitLengths
  import opened Tokens
  import opened Blocks
  import opened BlockEncoder
  import opened BlockSize
  import opened Inflated
  import opened Stream
  import opened StaticTrees
  import opened FlushBlock
  import opened Overlay
  import Deflater

  ghost predicate TokensOver(c: Codes, tokens: seq<Token>, least: nat)
  {
    forall i :: 0 <= i < |tokens| ==> |TokenBits(c, tokens[i])| >= least
  }

  lemma {:induction false} TogetherOver(c: Codes, tokens: seq<Token>, least: nat)
    requires TokensOver(c, tokens, least)
    ensures |TokensBits(c, tokens)| >= least * |tokens|
  {
    hide TokenBits;
    if tokens != [] {
      var n := |tokens| - 1;
      TogetherOver(c, tokens[..n], least);
      Distrib(n, 1, least);
    }
  }

  /** Long tokens fall behind the output. */
  lemma LongAreLost(c: Codes, tokens: seq<Token>, least: nat, head: int, size: nat)
    requires tokens != [] && TokensOver(c, tokens, least)
    requires head + least * (|tokens| - 1) > 8 * DistAt(size, |tokens| - 1) + 16
    ensures !Unharmed(c, tokens, head, size)
  {
    hide TokensBits, TokenBits;
    var n := |tokens| - 1;
    TogetherOver(c, tokens[..n], least);
    assert !Early(c, tokens, head, size, n);
  }

  // With the static trees.

  /** A match of 131 bytes from more than 256 back takes 25 bits, from more than 16384 back 31. */
  lemma FarMatch(dist: nat)
    requires 256 < dist <= 0x8000
    ensures |TokenBits(FixedCodes(MAX_BITS), Match(131, dist))| >= if dist > 0x4000 then 31 else 25
  {
    hide FixedCodes, TokenBits, DCode, LSym, StaticDesc.ExtraBits;
    var t := Match(131, dist);
    assert forall i :: 0 <= i < 1 ==> TokenOk([t][i]);
    FixedSendsAll([t], MAX_BITS);
    assert CanSendToken(FixedCodes(MAX_BITS), [t][0]);
    TokenSize(FixedCodes(MAX_BITS), t);
    LongLength(dist);
    FarSymbol(dist);
  }

  lemma LongLength(dist: nat)
    ensures LSym(Match(131, dist)) == 281 && At(FixedCodes(MAX_BITS).llens, 281) + LDesc().ExtraBits(281) == 13
  {
    LengthSearchFinds(128, 27);
  }

  lemma FarSymbol(dist: nat)
    requires 256 < dist <= 0x8000
    ensures DCode(dist - 1) < 30 && At(FixedCodes(MAX_BITS).dlens, DCode(dist - 1)) == 5
    ensures DDesc().ExtraBits(DCode(dist - 1)) >= if dist > 0x4000 then 13 else 7
  {
    hide DCode, BaseDist, ExtraDist, StaticDesc.ExtraBits;
    DistCodeFits(dist - 1);
    NearBases(DCode(dist - 1));
  }

  lemma NearBases(c: nat)
    requires c < 30
    ensures DDesc().ExtraBits(c) == ExtraDist(c)
    ensures if c < 16 then BaseDist(c) + Pow2(ExtraDist(c)) <= 256 else ExtraDist(c) >= 7
    ensures if c < 28 then BaseDist(c) + Pow2(ExtraDist(c)) <= 0x4000 else ExtraDist(c) >= 13
  {
    SmallPowers();
  }

  ghost predicate AllOk(tokens: seq<Token>) { forall i :: 0 <= i < |tokens| ==> TokenOk(tokens[i]) }

  /** All blocks of a compressor with this buffer and reach get through with the static trees, however many bits are
      held before their type. */
  ghost predicate AlwaysThrough(size: nat, reach: nat)
  {
    forall tokens, head :: |tokens| < size && 3 <= head < 11 && AllOk(tokens) && Near(tokens, reach) ==>
      Unharmed(FixedCodes(MAX_BITS), tokens, head, size)
  }

  /** They do if and only if no match can reach back further than 256 bytes, whatever the size of the buffer. */
  lemma WhenAlways(size: nat, reach: nat)
    requires size >= 128
    ensures AlwaysThrough(size, reach) <==> reach <= 256
  {
    hide FixedCodes, Unharmed, TokenBits;
    if reach <= 256 {
      forall tokens, head | |tokens| < size && 3 <= head < 11 && AllOk(tokens) && Near(tokens, reach)
        ensures Unharmed(FixedCodes(MAX_BITS), tokens, head, size)
      {
        StaticUnder(tokens);
        ShortGetThrough(FixedCodes(MAX_BITS), tokens, 24, head, size);
      }
    } else {
      var tokens := seq(size - 1, _ => Match(131, 257));
      FarMatch(257);
      LongAreLost(FixedCodes(MAX_BITS), tokens, 25, 3, size);
    }
  }

  /** 127 matches of 131 bytes, in turn from 20000 and 24000 back. */
  function FarCopies(): seq<Token> { seq(127, i => Match(131, if i % 2 == 0 then 20000 else 24000)) }

  /** The distance that the output since the start of a block puts in the place of that of token `i`. */
  ghost function Seen(sent: seq<bool>, size: nat, i: nat): nat
    requires |sent| >= 8 * DistAt(size, i) + 16
  {
    Value(sent[8 * DistAt(size, i)..8 * DistAt(size, i) + 16])
  }

  /** That is what the memory shows there. */
  lemma OutputShows(put: seq<Byte>, held: seq<bool>, mem: array<Byte>, size: nat, i: nat)
    requires mem.Length == 4 * size && i < size && |put| >= DistAt(size, i) + 2
    ensures |BytesToBits(put)| >= 8 * DistAt(size, i) + 16
      && Word16(Shown(put, mem, DistAt(size, i)), Shown(put, mem, DistAt(size, i) + 1))
        == Seen(BytesToBits(put) + held, size, i)
  {
    hide BytesToBits, ToBits, Value;
    var at := DistAt(size, i);
    var lo, hi, rest := put[at], put[at + 1], put[at + 2..];
    assert put == put[..at] + [lo] + [hi] + rest;
    BytesConcat(put[..at] + [lo] + [hi], rest);
    BytesSnoc(put[..at] + [lo], hi);
    BytesSnoc(put[..at], lo);
    assert (BytesToBits(put) + held)[8 * at..8 * at + 16] == ToBits(lo, 8) + ToBits(hi, 8);
    ValueConcat(ToBits(lo, 8), ToBits(hi, 8));
    ValueToBits(lo, 8);
    ValueToBits(hi, 8);
    SmallPowers();
  }

  /** Such a match takes 31 bits, and five of them, which say how much longer than 131 it is, are zero. */
  lemma FarMatchBits(dist: nat)
    requires 0x4000 < dist <= 0x8000
    ensures var bits := TokenBits(FixedCodes(MAX_BITS), Match(131, dist));
      |bits| == 31 && forall i :: 8 <= i < 13 ==> !bits[i]
  {
    hide FixedCodes, DCode, DistBits;
    FarMatch(dist);
    StaticUnder([Match(131, dist)]);
    assert |TokenBits(FixedCodes(MAX_BITS), [Match(131, dist)][0])| <= 31;
    LengthSearchFinds(128, 27);
    LongLength(dist);
  }

  lemma FarCopiesBits(n: nat)
    requires n <= 127
    ensures |TokensBits(FixedCodes(MAX_BITS), FarCopies()[..n])| == 31 * n
  {
    hide TokensBits, TokenBits, FixedCodes;
    FarMatchBits(20000);
    FarMatchBits(24000);
    TogetherOver(FixedCodes(MAX_BITS), FarCopies()[..n], 31);
    TogetherUnder(FixedCodes(MAX_BITS), FarCopies()[..n], 31);
  }

  ghost function Halved(v: nat, k: nat): nat { if k == 0 then v else Halved(v / 2, k - 1) }

  lemma {:induction false} BitAt(v: nat, n: nat, k: nat)
    requires k < n
    ensures ToBits(v, n)[k] == (Halved(v, k) % 2 == 1)
  {
    if k > 0 { BitAt(v / 2, n - 1, k - 1); }
  }

  /** The first 70 of these tokens get through, but the distance of the next is not what it was: it is read from bits of
      the token before. */
  lemma ReadAmiss()
    ensures var c, tokens := FixedCodes(MAX_BITS), FarCopies();
      var sent := ToBits(2, 3) + TokensBits(c, tokens[..70]);
      && (forall i :: 0 <= i < 70 ==> Early(c, tokens, 3, 128, i)) && !Early(c, tokens, 3, 128, 70)
      && |sent| >= 8 * DistAt(128, 70) + 16 && Seen(sent, 128, 70) != tokens[70].dist
  {
    hide TokensBits, TokenBits, FixedCodes, Value, ToBits;
    var c, tokens := FixedCodes(MAX_BITS), FarCopies();
    forall i | 0 <= i <= 70 ensures Early(c, tokens, 3, 128, i) <==> i < 70 {
      FarCopiesBits(i);
    }
    FarCopiesBits(69);
    FarCopiesBits(70);
    TokensSnoc(c, tokens, 69);
    FarMatchBits(24000);
    var sent := ToBits(2, 3) + TokensBits(c, tokens[..70]);
    assert !sent[2144..2160][9];
    ToBitsValue(sent[2144..2160]);
    BitAt(20000, 16, 9);
    assert Halved(20000, 9) == 39;
  }

  /** The smallest buffer is full of them: with the fixed strategy `x`, which the encoder makes of them, does not get
      through. */
  method LoseFixed() returns (ghost x: Sending, clean: bool)
    ensures x.tokens == FarCopies() && WellSent(x, true) && (clean <==> GotThrough(x, 128)) && !clean
  {
    hide Encoder.Valid, Encoder.Separate, Encoder.Tokens, BitWriter.Sent, BitWriter.Valid, OwnSize, StaticSize, Whole,
         TreesFor, IsStatic, Unharmed, FixedCodes, BlockSent, Brings, AnyRefused, TokenBits;
    var e, slt, sdt := Deflater.NewEncoder(128);
    var w := new BitWriter();
    Collect(e, FarCopies());
    ghost var bits, content, own, built;
    bits, content, own, built, clean := e.FlushBlock(w, slt, sdt, Null, 0, false, 9, true);
    x := Sending(FarCopies(), Null, content, own, built, 0);
    FarMatch(20000);
    FarMatch(24000);
    LongAreLost(FixedCodes(MAX_BITS), FarCopies(), 31, 3, 128);
  }
}
