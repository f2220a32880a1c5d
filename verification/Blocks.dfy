/** Compressed block data (sections 3.2.5 and 3.2.6 of RFC 1951): the bits compress_block sends for a
    sequence of tokens, the states LEN to DISTEXT that read them, and that reading gives back the tokens. */
module Blocks {
  import opened Bits
  import opened Canonical
  import opened DecodeTable
  import opened Header
  import opened Tokens

  /** How the decoder takes an entry: literal, end of block, invalid code, or a base with extra bits. */
  datatype Kind = KLit(val: nat) | KEnd | KInvalid | KBase(base: nat, extra: nat)

  function KindOf(a: Action): Kind
  {
    if a.op == 0 then KLit(a.val)
    else if (a.op / 32) % 2 == 1 then KEnd
    else if (a.op / 64) % 2 == 1 then KInvalid
    else KBase(a.val, a.op % 16)
  }

  function LenKind(s: nat): Kind { if s < MaxSymbols(LENS) then KindOf(SymbolAction(LENS, s)) else KInvalid }

  function DistKind(s: nat): Kind { if s < MaxSymbols(DISTS) then KindOf(SymbolAction(DISTS, s)) else KInvalid }

  /** What the symbols of the two alphabets mean to the decoder, in terms of the encoder's tables. */
  lemma LenKindIs(s: nat)
    requires s < 286
    ensures s < 256 ==> LenKind(s) == KLit(s)
    ensures s == 256 ==> LenKind(s) == KEnd
    ensures s > 256 ==> var c := s - 257;
      LenKind(s) == KBase(if c == 28 then 258 else BaseLength(c) + 3, ExtraLength(c))
  {
    hide BaseLength, ExtraLength;
    if s > 256 { LengthTablesAgree(s - 257); }
  }

  lemma DistKindIs(s: nat)
    requires s < 30
    ensures DistKind(s) == KBase(BaseDist(s) + 1, ExtraDist(s))
  {
    hide BaseDist, ExtraDist;
    DistTablesAgree(s);
  }

  /** The two codes of a block. */
  datatype Codes = Codes(llens: seq<nat>, dlens: seq<nat>, m: nat)
  {
    ghost predicate Valid()
    {
      && LensBounded(llens, m) && Kraft(llens, m) <= Pow2(m)
      && LensBounded(dlens, m) && Kraft(dlens, m) <= Pow2(m)
    }
  }

  predicate HasCode(lens: seq<nat>, s: nat) { s < |lens| && lens[s] > 0 }

  /** The codes have a code for every symbol of the token. */
  ghost predicate CanSendToken(c: Codes, t: Token)
  {
    && TokenOk(t)
    && match t
       case Literal(b) => HasCode(c.llens, b)
       case Match(len, dist) => HasCode(c.llens, LengthCode(len - 3) + 257) && HasCode(c.dlens, DCode(dist - 1))
  }

  ghost predicate CanSendAll(c: Codes, tokens: seq<Token>)
  {
    HasCode(c.llens, END_BLOCK) && forall i :: 0 <= i < |tokens| ==> CanSendToken(c, tokens[i])
  }

  function SymbolBits(lens: seq<nat>, s: nat): seq<bool> { if s < |lens| then CodeBits(lens, s) else [] }

  /** Length code and its extra bits. */
  function LengthBits(c: Codes, len: nat): seq<bool>
    requires MIN_MATCH <= len <= MAX_MATCH
  {
    var lc := len - 3;
    var code := LengthCode(lc);
    SymbolBits(c.llens, code + 257)
      + if ExtraLength(code) != 0 && BaseLength(code) <= lc then ToBits(lc - BaseLength(code), ExtraLength(code))
        else []
  }

  /** Distance code and its extra bits. */
  function DistBits(c: Codes, dist: nat): seq<bool>
    requires 1 <= dist <= 0x8000
  {
    var d := dist - 1;
    var code := DCode(d);
    SymbolBits(c.dlens, code)
      + if ExtraDist(code) != 0 && BaseDist(code) <= d then ToBits(d - BaseDist(code), ExtraDist(code)) else []
  }

  function TokenBits(c: Codes, t: Token): seq<bool>
  {
    match t
    case Literal(b) => SymbolBits(c.llens, b)
    case Match(len, dist) => if TokenOk(t) then LengthBits(c, len) + DistBits(c, dist) else []
  }

  function TokensBits(c: Codes, tokens: seq<Token>): seq<bool>
  {
    if tokens == [] then [] else TokensBits(c, tokens[..|tokens| - 1]) + TokenBits(c, tokens[|tokens| - 1])
  }

  /** The data of a block: its tokens and the end-of-block code. */
  function BlockBits(c: Codes, tokens: seq<Token>): seq<bool> { TokensBits(c, tokens) + SymbolBits(c.llens, END_BLOCK) }

  /** One pass through LEN to DISTEXT: a token, or the end of the block. */
  datatype Step = Tok(t: Token) | EndOfBlock

  /** LENEXT to DISTEXT after a length base. */
  ghost function ReadMatch(c: Codes, bs: seq<bool>, base: nat, extra: nat): Parse<Step>
  {
    match Field(bs, extra)
    case Short => Short
    case Bad => Bad
    case Ok(e, bs1) => ReadDist(c, bs1, base + e)
  }

  /** DIST and DISTEXT for a match of length `len`. */
  ghost function ReadDist(c: Codes, bs: seq<bool>, len: nat): Parse<Step>
  {
    match NextSymbol(c.dlens, c.m, bs)
    case Invalid => Bad
    case NeedMore => Short
    case Sym(s) => ReadDistExtra(bs[c.dlens[s]..], len, DistKind(s))
  }

  ghost function ReadDistExtra(bs: seq<bool>, len: nat, k: Kind): Parse<Step>
  {
    if !k.KBase? then Bad
    else
      match Field(bs, k.extra)
      case Short => Short
      case Bad => Bad
      case Ok(e, rest) => Ok(Tok(Match(len, k.base + e)), rest)
  }

  /** LEN to DISTEXT. */
  ghost function ReadStep(c: Codes, bs: seq<bool>): Parse<Step>
  {
    match NextSymbol(c.llens, c.m, bs)
    case Invalid => Bad
    case NeedMore => Short
    case Sym(s) =>
      var rest := bs[c.llens[s]..];
      match LenKind(s)
      case KLit(val) => if val < 256 then Ok(Tok(Literal(val)), rest) else Bad
      case KEnd => Ok(EndOfBlock, rest)
      case KInvalid => Bad
      case KBase(base, extra) => ReadMatch(c, rest, base, extra)
  }

  lemma StepShrinks(c: Codes, bs: seq<bool>)
    ensures var r := ReadStep(c, bs); r.Ok? ==> |r.rest| < |bs|
  {
  }

  /** All tokens of a block, up to its end-of-block code. */
  ghost function ReadBlock(c: Codes, bs: seq<bool>): Parse<seq<Token>>
    decreases |bs|
  {
    StepShrinks(c, bs);
    match ReadStep(c, bs)
    case Short => Short
    case Bad => Bad
    case Ok(EndOfBlock, rest) => Ok([], rest)
    case Ok(Tok(t), rest) =>
      var r := ReadBlock(c, rest);
      if r.Ok? then Ok([t] + r.value, r.rest) else r
  }

  lemma SymbolSent(lens: seq<nat>, m: nat, s: nat, rest: seq<bool>)
    requires LensBounded(lens, m) && Kraft(lens, m) <= Pow2(m) && HasCode(lens, s)
    ensures NextSymbol(lens, m, SymbolBits(lens, s) + rest) == Sym(s)
    ensures (SymbolBits(lens, s) + rest)[lens[s]..] == rest
  {
    SentSymbol(lens, m, s, rest);
  }

  /** An absent field of zero bits reads as zero. */
  lemma OptionalField(v: nat, n: nat, rest: seq<bool>)
    requires v < Pow2(n)
    ensures Field((if n != 0 then ToBits(v, n) else []) + rest, n) == Ok(v, rest)
  {
    FieldSent(v, n, rest);
    assert ToBits(v, 0) == [];
  }

  lemma DistRead(c: Codes, len: nat, dist: nat, rest: seq<bool>)
    requires c.Valid() && 1 <= dist <= 0x8000 && HasCode(c.dlens, DCode(dist - 1))
    ensures ReadDist(c, DistBits(c, dist) + rest, len) == Ok(Tok(Match(len, dist)), rest)
  {
    hide Field, LensBounded, Kraft, ToBits, SymbolBits, DistKind, DCode, BaseDist, ExtraDist;
    var d, s := dist - 1, DCode(dist - 1);
    DistCodeFits(d);
    DistKindIs(s);
    var e := d - BaseDist(s);
    var extra := if ExtraDist(s) != 0 then ToBits(e, ExtraDist(s)) else [];
    OptionalField(e, ExtraDist(s), rest);
    SymbolSent(c.dlens, c.m, s, extra + rest);
    assert DistBits(c, dist) + rest == SymbolBits(c.dlens, s) + (extra + rest);
  }

  lemma MatchRead(c: Codes, len: nat, dist: nat, rest: seq<bool>)
    requires c.Valid() && CanSendToken(c, Match(len, dist))
    ensures ReadStep(c, TokenBits(c, Match(len, dist)) + rest) == Ok(Tok(Match(len, dist)), rest)
  {
    hide Field, LensBounded, Kraft, ToBits, SymbolBits, LenKind, DCode, LengthCode, ReadDist, DistBits, BaseLength,
         ExtraLength, Pow2, NextSymbol, Decodes;
    var lc, s := len - 3, LengthCode(len - 3);
    LengthCodeFits(lc);
    LenKindIs(s + 257);
    DistRead(c, len, dist, rest);
    var after := DistBits(c, dist) + rest;
    var e := if s == 28 then 0 else lc - BaseLength(s);
    var n := ExtraLength(s);
    LongestHasNoExtra();
    var extra := if n != 0 then ToBits(e, n) else [];
    OptionalField(e, n, after);
    SymbolSent(c.llens, c.m, s + 257, extra + after);
    assert LengthBits(c, len) == SymbolBits(c.llens, s + 257) + extra;
    assert TokenBits(c, Match(len, dist)) + rest == SymbolBits(c.llens, s + 257) + (extra + after);
  }

  lemma LongestHasNoExtra()
    ensures ExtraLength(28) == 0 && Pow2(0) == 1
  {
  }

  /** A token sent is the token read. */
  lemma TokenRead(c: Codes, t: Token, rest: seq<bool>)
    requires c.Valid() && CanSendToken(c, t)
    ensures ReadStep(c, TokenBits(c, t) + rest) == Ok(Tok(t), rest)
  {
    hide SymbolBits, LenKind, LensBounded, Kraft;
    match t
    case Literal(b) =>
      SymbolSent(c.llens, c.m, b, rest);
      LenKindIs(b);
    case Match(len, dist) => MatchRead(c, len, dist, rest);
  }

  lemma {:induction false} TokensConcat(c: Codes, a: seq<Token>, b: seq<Token>)
    ensures TokensBits(c, a + b) == TokensBits(c, a) + TokensBits(c, b)
  {
    hide TokenBits;
    if b == [] {
      assert a + b == a;
    } else {
      assert (a + b)[..|a + b| - 1] == a + b[..|b| - 1];
      TokensConcat(c, a, b[..|b| - 1]);
    }
  }

  lemma TokensHead(c: Codes, tokens: seq<Token>)
    requires tokens != []
    ensures TokensBits(c, tokens) == TokenBits(c, tokens[0]) + TokensBits(c, tokens[1..])
  {
    hide TokenBits;
    assert tokens == [tokens[0]] + tokens[1..];
    TokensConcat(c, [tokens[0]], tokens[1..]);
    assert [tokens[0]][..0] == [];
    assert TokensBits(c, [tokens[0]]) == [] + TokenBits(c, tokens[0]);
  }

  /** Reading back the data of a block gives its tokens, then the end of the block, and nothing more. */
  lemma {:induction false} BlockRoundTrip(c: Codes, tokens: seq<Token>, rest: seq<bool>)
    requires c.Valid() && CanSendAll(c, tokens)
    ensures ReadBlock(c, BlockBits(c, tokens) + rest) == Ok(tokens, rest)
    decreases tokens
  {
    hide TokenBits, ReadStep, SymbolBits, TokensBits, CanSendToken;
    var end := SymbolBits(c.llens, END_BLOCK);
    if tokens == [] {
      NoTokens(c);
      assert BlockBits(c, tokens) + rest == end + rest;
      EndRead(c, rest);
    } else {
      var tail := BlockBits(c, tokens[1..]) + rest;
      TokensHead(c, tokens);
      assert BlockBits(c, tokens) + rest == TokenBits(c, tokens[0]) + tail;
      TokenRead(c, tokens[0], tail);
      BlockRoundTrip(c, tokens[1..], rest);
      assert [tokens[0]] + tokens[1..] == tokens;
    }
  }

  lemma NoTokens(c: Codes)
    ensures TokensBits(c, []) == []
  {
  }

  lemma EndRead(c: Codes, rest: seq<bool>)
    requires c.Valid() && HasCode(c.llens, END_BLOCK)
    ensures ReadStep(c, SymbolBits(c.llens, END_BLOCK) + rest) == Ok(EndOfBlock, rest)
  {
    hide SymbolBits, LensBounded, Kraft, LenKind;
    SymbolSent(c.llens, c.m, END_BLOCK, rest);
    LenKindIs(END_BLOCK);
  }
}
