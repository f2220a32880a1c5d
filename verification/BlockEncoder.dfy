/** trees.c: sending trees and block data. Each method sends exactly the bits the format functions of the
    Header and Blocks modules give. */
module BlockEncoder {
  import opened Bits
  import opened BitWriter
  import opened Canonical
  import opened Tokens
  import opened Blocks

  /** A tree ready for sending: lengths of at most 15 bits, and for every symbol in use its code, stored so
      that sending it least significant bit first sends the code. */
  ghost predicate TreeCoded(fc: seq<nat>, lens: seq<nat>)
  {
    && |lens| <= |fc|
    && forall s :: 0 <= s < |lens| ==> lens[s] <= 15 && (lens[s] > 0 ==> fc[s] == Value(CodeBits(lens, s)))
  }

  lemma CodeToSend(lens: seq<nat>, s: nat)
    requires s < |lens|
    ensures Value(CodeBits(lens, s)) < Pow2(lens[s])
    ensures ToBits(Value(CodeBits(lens, s)), lens[s]) == CodeBits(lens, s)
  {
    ValueBound(CodeBits(lens, s));
    ToBitsValue(CodeBits(lens, s));
  }

  /** A tree: its codes and lengths, for the symbols below `codes`. */
  datatype Tree = Tree(fc: array<nat>, dl: array<nat>, codes: nat)
  {
    ghost predicate Valid()
      reads fc, dl
    {
      codes <= dl.Length && TreeCoded(fc[..], dl[..codes])
    }

    ghost function Lens(): seq<nat>
      requires codes <= dl.Length
      reads dl
    {
      dl[..codes]
    }
  }

  /** Send the code of symbol `c`. */
  method SendCode(w: BitWriter, t: Tree, c: nat)
    requires w.Valid() && t.Valid() && HasCode(t.Lens(), c)
    modifies w
    ensures w.Valid() && w.base == old(w.base) && w.Sent() == old(w.Sent()) + SymbolBits(t.Lens(), c)
  {
    hide Value, CodeBits, ToBits;
    CodeToSend(t.Lens(), c);
    w.SendBits(t.fc[c], t.dl[c]);
  }

  /** A literal or a match, from the two match buffers. */
  function TokenAt(dist: nat, lc: Byte): Token { if dist == 0 then Literal(lc) else Match(lc + 3, dist) }

  /** Where the distance and the length or literal of token `i` are kept. Both buffers share their memory with the
      pending output, which starts at zero: only the first `size` bytes are its own. */
  function DistAt(size: nat, i: nat): nat { size + 2 * i }

  function LitAt(size: nat, i: nat): nat { 3 * size + i }

  /** What the memory holds at `i` after the pending bytes `put`. */
  function Shown(put: seq<Byte>, mem: array<Byte>, i: nat): Byte
    requires i < mem.Length
    reads mem
  {
    if i < |put| then put[i] else mem[i]
  }

  function Word16(lo: nat, hi: nat): nat { lo + 256 * hi }

  /** Token `i` of those collected in the memory. */
  function TokenIn(mem: seq<Byte>, size: nat, i: nat): Token
    requires i < size && |mem| == 4 * size
  {
    TokenAt(Word16(mem[DistAt(size, i)], mem[DistAt(size, i) + 1]), mem[LitAt(size, i)])
  }

  function Buffered(mem: seq<Byte>, size: nat, n: nat): (tokens: seq<Token>)
    requires n <= size && |mem| == 4 * size
    ensures |tokens| == n && forall i :: 0 <= i < n ==> tokens[i] == TokenIn(mem, size, i)
  {
    seq(n, i requires 0 <= i < n => TokenIn(mem, size, i))
  }

  /** No token is overwritten before it is sent: the bits of this block that come before it, with the `head` bits before
      all of them, take less than the words of memory up to its distance. */
  ghost predicate Unharmed(c: Codes, tokens: seq<Token>, head: int, size: nat)
  {
    forall i :: 0 <= i < |tokens| ==> Early(c, tokens, head, size, i)
  }

  ghost predicate Early(c: Codes, tokens: seq<Token>, head: int, size: nat, i: nat)
    requires i <= |tokens|
  {
    head + |TokensBits(c, tokens[..i])| <= 8 * DistAt(size, i) + 16
  }

  /** Output comes in words, the last of which is held until the next begins. */
  lemma Overtaken(p: nat, v: nat, at: nat)
    requires p % 2 == 0 && at % 2 == 0 && v <= BUF_SIZE && (p > 0 ==> v >= 1)
    ensures p > at <==> 8 * p + v > 8 * at + 16
  {
  }

  lemma WhenOvertaken(w: BitWriter, size: nat, i: nat)
    requires w.Valid() && size % 2 == 0
    ensures w.base <= |w.pending|
    ensures |w.pending| - w.base > DistAt(size, i) <==> |w.Sent()| - 8 * w.base > 8 * DistAt(size, i) + 16
  {
    SentSize(w);
    assert DistAt(size, i) % 2 == 0;
    Overtaken(|w.pending| - w.base, w.biValid, DistAt(size, i));
  }

  lemma SentSize(w: BitWriter)
    ensures |w.Sent()| == 8 * |w.pending| + w.biValid
  {
  }

  /** Send the length code and its extra bits. */
  method SendLength(w: BitWriter, lt: Tree, lc: nat, ghost c: Codes)
    requires lt.Valid() && w.Valid() && lc < 256 && HasCode(lt.Lens(), LengthCode(lc) + 257) && c.llens == lt.Lens()
    modifies w
    ensures w.Valid() && w.base == old(w.base) && w.Sent() == old(w.Sent()) + LengthBits(c, lc + 3)
  {
    hide TreeCoded, BaseLength, ExtraLength, LengthCode, SymbolBits, ToBits, Pow2;
    var code := LengthCode(lc);
    LengthCodeFits(lc);
    FewExtraBits(code, 0);
    SendCode(w, lt, code + 257);
    var extra := ExtraLength(code);
    if extra != 0 {
      LongestExtra(code);
      w.SendBits(lc - BaseLength(code), extra);
    }
  }

  lemma FewExtraBits(l: nat, d: nat)
    requires l < 29 && d < 30
    ensures ExtraLength(l) <= 5 && ExtraDist(d) <= 13
  {
  }

  lemma LongestExtra(code: nat)
    requires code < 29 && ExtraLength(code) != 0
    ensures code != 28
  {
  }

  /** Send the distance code and its extra bits. */
  method SendDistance(w: BitWriter, dt: Tree, d: nat, ghost c: Codes)
    requires dt.Valid() && w.Valid() && d < 0x8000 && HasCode(dt.Lens(), DCode(d)) && c.dlens == dt.Lens()
    modifies w
    ensures w.Valid() && w.base == old(w.base) && w.Sent() == old(w.Sent()) + DistBits(c, d + 1)
  {
    hide TreeCoded, BaseDist, ExtraDist, DCode, SymbolBits, ToBits, Pow2;
    var code := DCode(d);
    DistCodeFits(d);
    FewExtraBits(0, code);
    SendCode(w, dt, code);
    var extra := ExtraDist(code);
    if extra != 0 {
      w.SendBits(d - BaseDist(code), extra);
    }
  }

  method SendToken(w: BitWriter, lt: Tree, dt: Tree, dist: nat, lc: Byte, ghost c: Codes)
    requires lt.Valid() && dt.Valid() && w.Valid() && c.llens == lt.Lens() && c.dlens == dt.Lens()
    requires CanSendToken(c, TokenAt(dist, lc))
    modifies w
    ensures w.Valid() && w.base == old(w.base) && w.Sent() == old(w.Sent()) + TokenBits(c, TokenAt(dist, lc))
  {
    hide TreeCoded, LengthBits, DistBits, SymbolBits;
    if dist == 0 {
      SendCode(w, lt, lc);
    } else {
      SendLength(w, lt, lc, c);
      SendDistance(w, dt, dist - 1, c);
    }
  }

  lemma TokensSnoc(c: Codes, tokens: seq<Token>, i: nat)
    requires i < |tokens|
    ensures TokensBits(c, tokens[..i + 1]) == TokensBits(c, tokens[..i]) + TokenBits(c, tokens[i])
  {
    assert tokens[..i + 1][..i] == tokens[..i];
  }

  /** Send token `lx`, unless output has been put in its place. */
  method SendBuffered(w: BitWriter, lt: Tree, dt: Tree, mem: array<Byte>, size: nat, lx: nat, from: nat, ghost c: Codes)
    returns (clean: bool)
    requires lt.Valid() && dt.Valid() && w.Valid() && lx < size && mem.Length == 4 * size && size % 2 == 0
    requires c.llens == lt.Lens() && c.dlens == dt.Lens() && from == w.base
    requires CanSendToken(c, TokenIn(mem[..], size, lx))
    modifies w
    ensures w.Valid() && w.base == old(w.base)
    ensures clean <==> |old(w.Sent())| - 8 * from <= 8 * DistAt(size, lx) + 16
    ensures w.Sent() == old(w.Sent()) + if clean then TokenBits(c, TokenIn(mem[..], size, lx)) else []
  {
    hide TreeCoded, CanSendToken, TokenBits, BitWriter.Sent, BitWriter.Valid, Word16;
    WhenOvertaken(w, size, lx);
    var put := w.pending[from..];
    clean := |put| <= DistAt(size, lx);
    if clean {
      var lo, hi := Shown(put, mem, DistAt(size, lx)), Shown(put, mem, DistAt(size, lx) + 1);
      SendToken(w, lt, dt, Word16(lo, hi), Shown(put, mem, LitAt(size, lx)), c);
    }
  }

  /** Send the buffered tokens and the end-of-block code. The pending buffer starts with the byte `from` of the output.
      False, and the rest is not sent, at a token that has been overwritten: what stands in its place is output. */
  method CompressBlock(w: BitWriter, lt: Tree, dt: Tree, mem: array<Byte>, size: nat, lastLit: nat, from: nat,
                       ghost c: Codes)
    returns (clean: bool)
    requires lt.Valid() && dt.Valid() && w.Valid() && lastLit <= size && mem.Length == 4 * size && size % 2 == 0
    requires c.llens == lt.Lens() && c.dlens == dt.Lens() && from == w.base
    requires CanSendAll(c, Buffered(mem[..], size, lastLit))
    modifies w
    ensures w.Valid() && w.base == old(w.base) && old(w.Sent()) <= w.Sent()
    ensures clean <==> Unharmed(c, Buffered(mem[..], size, lastLit), |old(w.Sent())| - 8 * from, size)
    ensures clean ==> w.Sent() == old(w.Sent()) + BlockBits(c, Buffered(mem[..], size, lastLit))
  {
    hide TreeCoded, TokensBits, CanSendToken, TokenBits, BitWriter.Sent, BitWriter.Valid;
    ghost var tokens, head := Buffered(mem[..], size, lastLit), |w.Sent()| - 8 * from;
    NoTokens(c);
    var lx := 0;
    clean := true;
    while clean && lx < lastLit
      invariant 0 <= lx <= lastLit && w.Valid() && w.base == from && old(w.Sent()) <= w.Sent()
      invariant forall i :: 0 <= i < lx ==> Early(c, tokens, head, size, i)
      invariant clean ==> w.Sent() == old(w.Sent()) + TokensBits(c, tokens[..lx])
      invariant !clean ==> lx < lastLit && !Early(c, tokens, head, size, lx)
      decreases clean, lastLit - lx
    {
      clean := SendBuffered(w, lt, dt, mem, size, lx, from, c);
      if clean {
        TokensSnoc(c, tokens, lx);
        lx := lx + 1;
      }
    }
    if clean {
      assert tokens[..lastLit] == tokens;
      SendCode(w, lt, END_BLOCK);
    }
  }
}
