/** One block of a deflate stream, of any of the three kinds, as inflate reads it (section 3.2.3 of RFC 1951). */
module Stream {
  import opened Bits
  import opened BitWriter
  import opened Canonical
  import opened CodeLengths
  import opened Header
  import opened SubTables
  import opened Tokens
  import opened Blocks
  import opened BlockSize

  /** What a block holds: bytes as they are, or tokens. */
  datatype Content = Stored(bytes: seq<Byte>) | Coded(tokens: seq<Token>)

  function FixedCodes(m: nat): Codes { Codes(StaticLens(288), Fives(32), m) }

  /** Bits to the next byte boundary. */
  function Padding(at: nat): (n: nat)
    ensures n < 8 && (at + n) % 8 == 0
  {
    (8 - at % 8) % 8
  }

  function ReadBytes(bs: seq<bool>, n: nat): Parse<seq<Byte>>
    decreases n
  {
    if n == 0 then Ok([], bs)
    else if |bs| < 8 then Short
    else
      ValueBound(bs[..8]);
      Byte256();
      match ReadBytes(bs[8..], n - 1)
      case Short => Short
      case Bad => Bad
      case Ok(bytes, rest) => Ok([Value(bs[..8])] + bytes, rest)
  }

  lemma Byte256()
    ensures Pow2(8) == 256 && Pow2(16) == 0x1_0000
  {
    Pow2Values();
  }

  /** STORED and COPY: skip to a byte boundary, two copies of the length, then the bytes. */
  function ReadStored(bs: seq<bool>, at: nat): Parse<seq<Byte>>
  {
    if |bs| < Padding(at) then Short
    else
      match Field(bs[Padding(at)..], 16)
      case Short => Short
      case Bad => Bad
      case Ok(len, bs1) =>
        match Field(bs1, 16)
        case Short => Short
        case Bad => Bad
        case Ok(nlen, bs2) => if len + nlen != 0xffff then Bad else ReadBytes(bs2, len)
  }

  /** TYPEDO and on: one block that starts at bit `at` of the stream, with its last-block flag. */
  ghost function ReadAny(bs: seq<bool>, at: nat, m: nat): Parse<(bool, Content)>
  {
    match Field(bs, 3)
    case Short => Short
    case Bad => Bad
    case Ok(v, bs1) => ReadKind(v % 2 == 1, v / 2, bs1, at + 3, m)
  }

  ghost function ReadKind(last: bool, kind: nat, bs: seq<bool>, at: nat, m: nat): Parse<(bool, Content)>
  {
    if kind == 0 then
      match ReadStored(bs, at)
      case Short => Short
      case Bad => Bad
      case Ok(bytes, rest) => Ok((last, Stored(bytes)), rest)
    else if kind == 1 then Data(last, ReadBlock(FixedCodes(m), bs))
    else if kind == 2 then
      match ReadHeader(bs, m)
      case Short => Short
      case Bad => Bad
      case Ok(t, rest) => Data(last, ReadBlock(Codes(t.0, t.1, m), rest))
    else Bad
  }

  ghost function Data(last: bool, p: Parse<seq<Token>>): Parse<(bool, Content)>
  {
    match p
    case Short => Short
    case Bad => Bad
    case Ok(tokens, rest) => Ok((last, Coded(tokens)), rest)
  }

  lemma {:induction false} BytesRead(bytes: seq<Byte>, rest: seq<bool>)
    ensures ReadBytes(BytesToBits(bytes) + rest, |bytes|) == Ok(bytes, rest)
  {
    hide Pow2, Value, ToBits;
    if bytes == [] {
      assert BytesToBits(bytes) + rest == rest;
    } else {
      var bs := BytesToBits(bytes) + rest;
      var tail := BytesToBits(bytes[1..]) + rest;
      assert bs == ToBits(bytes[0], 8) + tail;
      Byte256();
      FieldSent(bytes[0], 8, tail);
      assert Value(bs[..8]) == bytes[0] && bs[8..] == tail;
      BytesRead(bytes[1..], rest);
      assert [bytes[0]] + bytes[1..] == bytes;
    }
  }

  /** The bits of a stored block after its type. */
  function StoredBits(bytes: seq<Byte>, at: nat): seq<bool>
    requires |bytes| < 0x1_0000
  {
    ToBits(0, Padding(at)) + (ToBits(|bytes|, 16) + (ToBits(0xffff - |bytes|, 16) + BytesToBits(bytes)))
  }

  lemma StoredRead(bytes: seq<Byte>, at: nat, rest: seq<bool>)
    requires |bytes| < 0x1_0000
    ensures ReadStored(StoredBits(bytes, at) + rest, at) == Ok(bytes, rest)
  {
    hide ReadBytes, ToBits, BytesToBits;
    var b2 := BytesToBits(bytes) + rest;
    var b1 := ToBits(0xffff - |bytes|, 16) + b2;
    var b0 := ToBits(|bytes|, 16) + b1;
    var bs := StoredBits(bytes, at) + rest;
    assert bs == ToBits(0, Padding(at)) + b0;
    assert bs[Padding(at)..] == b0;
    Byte256();
    FieldSent(|bytes|, 16, b1);
    FieldSent(0xffff - |bytes|, 16, b2);
    BytesRead(bytes, rest);
  }

  /** The bits of a block: its type and what follows. */
  ghost predicate BlockSent(bits: seq<bool>, last: bool, content: Content, at: nat, m: nat)
  {
    forall rest :: ReadAny(bits + rest, at, m) == Ok((last, content), rest)
  }

  lemma TypeField(last: bool, kind: nat, tail: seq<bool>)
    requires kind < 4
    ensures Field(ToBits(2 * kind + Bit(last), 3) + tail, 3) == Ok(2 * kind + Bit(last), tail)
    ensures ((2 * kind + Bit(last)) % 2 == 1 <==> last) && (2 * kind + Bit(last)) / 2 == kind
  {
    hide ToBits, Field;
    assert Pow2(3) == 8;
    FieldSent(2 * kind + Bit(last), 3, tail);
  }

  lemma KindSent(last: bool, kind: nat, body: seq<bool>, content: Content, at: nat, m: nat)
    requires kind < 4 && forall rest :: ReadKind(last, kind, body + rest, at + 3, m) == Ok((last, content), rest)
    ensures BlockSent(ToBits(2 * kind + Bit(last), 3) + body, last, content, at, m)
  {
    hide ReadKind, ToBits, Field, Bit;
    forall rest ensures ReadAny(ToBits(2 * kind + Bit(last), 3) + body + rest, at, m) == Ok((last, content), rest) {
      assert ToBits(2 * kind + Bit(last), 3) + body + rest == ToBits(2 * kind + Bit(last), 3) + (body + rest);
      TypeField(last, kind, body + rest);
    }
  }

  lemma StoredSent(last: bool, bytes: seq<Byte>, at: nat, m: nat)
    requires |bytes| < 0x1_0000
    ensures BlockSent(ToBits(Bit(last), 3) + StoredBits(bytes, at + 3), last, Stored(bytes), at, m)
  {
    hide BlockSent, ReadStored, StoredBits;
    forall rest ensures ReadKind(last, 0, StoredBits(bytes, at + 3) + rest, at + 3, m) ==
      Ok((last, Stored(bytes)), rest) {
      StoredRead(bytes, at + 3, rest);
    }
    KindSent(last, 0, StoredBits(bytes, at + 3), Stored(bytes), at, m);
  }

  lemma FixedSent(last: bool, tokens: seq<Token>, at: nat, m: nat)
    requires FixedCodes(m).Valid() && CanSendAll(FixedCodes(m), tokens)
    ensures BlockSent(ToBits(2 + Bit(last), 3) + BlockBits(FixedCodes(m), tokens), last, Coded(tokens), at, m)
  {
    hide BlockSent, BlockBits, FixedCodes, ReadBlock;
    var body := BlockBits(FixedCodes(m), tokens);
    forall rest ensures ReadKind(last, 1, body + rest, at + 3, m) == Ok((last, Coded(tokens)), rest) {
      BlockRoundTrip(FixedCodes(m), tokens, rest);
    }
    KindSent(last, 1, body, Coded(tokens), at, m);
  }

  lemma DynamicSent(last: bool, c: Codes, blens: seq<nat>, blcodes: nat, tokens: seq<Token>, at: nat)
    requires c.Valid() && Sendable(c.llens, c.dlens, blens, blcodes, c.m) && CanSendAll(c, tokens)
    ensures BlockSent(ToBits(4 + Bit(last), 3) + (HeaderBits(c.llens, c.dlens, blens, blcodes) + BlockBits(c, tokens)),
                      last, Coded(tokens), at, c.m)
  {
    hide BlockSent, BlockBits, ReadBlock, ReadHeader, HeaderBits, CanSendAll;
    var head, body := HeaderBits(c.llens, c.dlens, blens, blcodes), BlockBits(c, tokens);
    forall rest ensures ReadKind(last, 2, head + body + rest, at + 3, c.m) == Ok((last, Coded(tokens)), rest) {
      assert head + body + rest == head + (body + rest);
      HeaderRoundTrip(c.llens, c.dlens, blens, blcodes, c.m, body + rest);
      assert Codes(c.llens, c.dlens, c.m) == c;
      BlockRoundTrip(c, tokens, rest);
    }
    KindSent(last, 2, head + body, Coded(tokens), at, c.m);
  }

  /** The trees that a block brings with it, if it has its own. */
  ghost function OwnTrees(bs: seq<bool>, m: nat): seq<Codes>
  {
    if |bs| < 3 || Value(bs[..3]) / 2 != 2 then []
    else
      match ReadHeader(bs[3..], m)
      case Short => []
      case Bad => []
      case Ok(t, rest) => [Codes(t.0, t.1, m)]
  }

  /** The decoder refuses one of these trees. */
  ghost predicate AnyRefused(trees: seq<Codes>)
  {
    exists i :: 0 <= i < |trees| && Refused(trees[i].llens, trees[i].dlens, trees[i].m)
  }

  /** A block brings these trees with it, whatever follows. */
  ghost predicate Brings(bits: seq<bool>, own: seq<Codes>, m: nat)
  {
    forall rest :: OwnTrees(bits + rest, m) == own
  }

  /** Only blocks of one kind bring trees with them. */
  lemma BringsNone(last: bool, kind: nat, body: seq<bool>, m: nat)
    requires kind < 4 && kind != 2
    ensures Brings(ToBits(2 * kind + Bit(last), 3) + body, [], m)
  {
    hide ToBits, Bit, ReadHeader, Value;
    var bits := ToBits(2 * kind + Bit(last), 3) + body;
    forall rest ensures OwnTrees(bits + rest, m) == [] {
      assert bits + rest == ToBits(2 * kind + Bit(last), 3) + (body + rest);
      TypeField(last, kind, body + rest);
    }
  }

  lemma BringsItsOwn(last: bool, c: Codes, blens: seq<nat>, blcodes: nat, body: seq<bool>)
    requires Sendable(c.llens, c.dlens, blens, blcodes, c.m)
    ensures Brings(ToBits(4 + Bit(last), 3) + (HeaderBits(c.llens, c.dlens, blens, blcodes) + body), [c], c.m)
  {
    hide ToBits, Bit, ReadHeader, Value, HeaderBits, TreeItems, Kraft, CanSend;
    var head := HeaderBits(c.llens, c.dlens, blens, blcodes);
    var bits := ToBits(4 + Bit(last), 3) + (head + body);
    forall rest ensures OwnTrees(bits + rest, c.m) == [c] {
      assert bits + rest == ToBits(4 + Bit(last), 3) + (head + (body + rest));
      TypeField(last, 2, head + (body + rest));
      HeaderRoundTrip(c.llens, c.dlens, blens, blcodes, c.m, body + rest);
      assert Codes(c.llens, c.dlens, c.m) == c;
    }
  }

  lemma RefusedOne(c: Codes)
    ensures AnyRefused([c]) <==> Refused(c.llens, c.dlens, c.m)
    ensures !AnyRefused([])
  {
    assert [c][0] == c;
  }

  lemma RefusedIn(a: seq<Codes>, b: seq<Codes>)
    ensures AnyRefused(a + b) <==> AnyRefused(a) || AnyRefused(b)
  {
    if AnyRefused(a) {
      var i :| 0 <= i < |a| && Refused(a[i].llens, a[i].dlens, a[i].m);
      assert (a + b)[i] == a[i];
    }
    if AnyRefused(b) {
      var i :| 0 <= i < |b| && Refused(b[i].llens, b[i].dlens, b[i].m);
      assert (a + b)[|a| + i] == b[i];
    }
  }

  /** The trees of all blocks of a stream, up to the last block or the first that cannot be read. */
  ghost function TreesIn(bs: seq<bool>, at: nat, m: nat): seq<Codes>
    decreases |bs|
  {
    var r := ReadAny(bs, at, m);
    if !r.Ok? || |r.rest| >= |bs| then []
    else OwnTrees(bs, m) + if r.value.0 then [] else TreesIn(r.rest, at + |bs| - |r.rest|, m)
  }

  lemma NotEmpty(block: seq<bool>, last: bool, content: Content, at: nat, m: nat)
    requires BlockSent(block, last, content, at, m)
    ensures block != []
  {
    assert ReadAny(block + [], at, m).Ok?;
  }

  lemma TreesAfter(block: seq<bool>, last: bool, content: Content, own: seq<Codes>, rest: seq<bool>, at: nat, m: nat)
    requires BlockSent(block, last, content, at, m) && Brings(block, own, m)
    ensures TreesIn(block + rest, at, m) == own + if last then [] else TreesIn(rest, at + |block|, m)
  {
    hide ReadAny, OwnTrees;
    NotEmpty(block, last, content, at, m);
  }
}
