/** What the compressor owes: the tokens stand for the input, and the bits sent so far for a part of it. */
module Compressed {
  import opened Bits
  import opened BitWriter
  import opened Tokens
  import opened Blocks
  import opened GenCodes
  import opened Stream
  import opened Window
  import opened Inflated
  import opened Matcher

  /** Tokens expand one after the other, and each reaches back only into what is there. */
  lemma {:induction false} ExpandConcat(h: seq<Byte>, a: seq<Token>, b: seq<Token>)
    ensures Expand(h, a + b) == Expand(Expand(h, a), b)
    ensures InReach(h, a + b) <==> InReach(h, a) && InReach(Expand(h, a), b)
    decreases |a|
  {
    hide ExpandOne;
    if a == [] {
      assert a + b == b;
    } else {
      assert (a + b)[1..] == a[1..] + b;
      ExpandConcat(ExpandOne(h, a[0]), a[1..], b);
    }
  }

  /** The tokens stand for the data. */
  ghost predicate Covers(tokens: seq<Token>, data: seq<Byte>)
  {
    InReach([], tokens) && Expand([], tokens) == data
  }

  lemma CoversSnoc(tokens: seq<Token>, t: Token, data: seq<Byte>)
    requires Covers(tokens, data) && (t.Match? ==> 1 <= t.dist <= |data|)
    ensures Covers(tokens + [t], ExpandOne(data, t))
  {
    hide ExpandOne;
    ExpandConcat([], tokens, [t]);
    assert [t][1..] == [];
  }

  lemma CoversLiteral(tokens: seq<Token>, stream: seq<Byte>, n: nat)
    requires n < |stream| && Covers(tokens, stream[..n])
    ensures Covers(tokens + [Literal(stream[n])], stream[..n + 1])
  {
    hide Covers;
    CoversSnoc(tokens, Literal(stream[n]), stream[..n]);
    assert stream[..n] + [stream[n]] == stream[..n + 1];
  }

  /** A match stands for bytes that are the same as earlier ones. */
  lemma CoversMatch(tokens: seq<Token>, stream: seq<Byte>, n: nat, dist: nat, len: nat)
    requires 1 <= dist <= n && Same(stream, n - dist, n, len) && Covers(tokens, stream[..n])
    ensures Covers(tokens + [Match(len, dist)], stream[..n + len])
  {
    hide Covers;
    CoversSnoc(tokens, Match(len, dist), stream[..n]);
    var h, r := stream[..n], stream[..n + len];
    forall i | |h| <= i < |r| ensures r[i] == r[i - dist] {
      assert stream[i - dist] == stream[i - dist + (n - (n - dist))];
    }
    ContinuesIsCopied(h, dist, len, r);
  }

  /** Inflating the bits fails after `h`, whatever follows them. */
  ghost predicate FailsAt(bits: seq<bool>, h: seq<Byte>, m: nat, w: nat)
  {
    forall rest :: |bits + rest| % 8 == 0 ==> Inflate(false, [], bits + rest, m, w) == Failed(h)
  }

  /** Inflating the bits yields the data, and goes on with what follows them. */
  ghost predicate Reaches(bits: seq<bool>, data: seq<Byte>, m: nat, w: nat)
  {
    forall rest :: |bits + rest| % 8 == 0 ==> Inflate(false, [], bits + rest, m, w) == Inflate(false, data, rest, m, w)
  }

  /** The blocks in the bits bring these trees with them. */
  ghost predicate Bear(bits: seq<bool>, trees: seq<Codes>, m: nat)
  {
    forall rest :: TreesIn(bits + rest, 0, m) == trees + TreesIn(rest, |bits|, m)
  }

  /** The bits carry the data, for every decoder that remembers `w` bytes, unless it refuses one of their trees. */
  ghost predicate Carries(bits: seq<bool>, data: seq<Byte>, trees: seq<Codes>, m: nat, w: nat)
  {
    Bear(bits, trees, m) && if AnyRefused(trees) then exists h :: FailsAt(bits, h, m, w) else Reaches(bits, data, m, w)
  }

  lemma CarriesNothing(m: nat, w: nat)
    ensures Carries([], [], [], m, w)
  {
    hide Inflate, TreesIn;
    forall rest: seq<bool> ensures [] + rest == rest {}
    assert forall rest: seq<bool> :: [] + TreesIn(rest, 0, m) == TreesIn(rest, 0, m);
  }

  lemma FailsOn(bits: seq<bool>, more: seq<bool>, h: seq<Byte>, m: nat, w: nat)
    requires FailsAt(bits, h, m, w)
    ensures FailsAt(bits + more, h, m, w)
  {
    hide Inflate;
    forall rest | |bits + more + rest| % 8 == 0 ensures Inflate(false, [], bits + more + rest, m, w) == Failed(h) {
      assert bits + more + rest == bits + (more + rest);
    }
  }

  /** One more block. */
  lemma BlockAfter(bits: seq<bool>, data: seq<Byte>, block: seq<bool>, last: bool, content: Content, own: seq<Codes>,
                   rest: seq<bool>, m: nat, w: nat)
    requires Reaches(bits, data, m, w) && BlockSent(block, last, content, |bits|, m) && Brings(block, own, m)
      && ContentOk(data, content, w)
    requires |bits + block + rest| % 8 == 0
    ensures Inflate(false, [], bits + block + rest, m, w) == if AnyRefused(own) then Failed(data)
      else Inflate(last, Yield(data, content), rest, m, w)
  {
    hide Inflate, ReadAny, Yield, ContentOk, OwnTrees, AnyRefused;
    assert bits + block + rest == bits + (block + rest);
    BlockYields(data, block + rest, |bits|, m, w);
  }

  lemma BearBlock(bits: seq<bool>, trees: seq<Codes>, block: seq<bool>, content: Content, own: seq<Codes>, m: nat)
    requires Bear(bits, trees, m) && BlockSent(block, false, content, |bits|, m) && Brings(block, own, m)
    ensures Bear(bits + block, trees + own, m)
  {
    hide TreesIn, BlockSent, Brings;
    forall rest ensures TreesIn(bits + block + rest, 0, m) == trees + own + TreesIn(rest, |bits + block|, m) {
      assert bits + block + rest == bits + (block + rest);
      TreesAfter(block, false, content, own, rest, |bits|, m);
      assert trees + (own + TreesIn(rest, |bits + block|, m)) == trees + own + TreesIn(rest, |bits + block|, m);
    }
  }

  lemma CarriesBlock(bits: seq<bool>, data: seq<Byte>, trees: seq<Codes>, block: seq<bool>, content: Content,
                     own: seq<Codes>, m: nat, w: nat)
    requires Carries(bits, data, trees, m, w) && BlockSent(block, false, content, |bits|, m) && Brings(block, own, m)
      && ContentOk(data, content, w)
    ensures Carries(bits + block, Yield(data, content), trees + own, m, w)
  {
    hide Inflate, BlockSent, Brings, Yield, ContentOk, AnyRefused, Bear;
    RefusedIn(trees, own);
    BearBlock(bits, trees, block, content, own, m);
    if AnyRefused(trees) {
      var h :| FailsAt(bits, h, m, w);
      FailsOn(bits, block, h, m, w);
    } else {
      forall rest | |bits + block + rest| % 8 == 0
        ensures Inflate(false, [], bits + block + rest, m, w) == if AnyRefused(own) then Failed(data)
          else Inflate(false, Yield(data, content), rest, m, w)
      {
        BlockAfter(bits, data, block, false, content, own, rest, m, w);
      }
      assert AnyRefused(own) ==> FailsAt(bits + block, data, m, w);
    }
  }

  lemma CarriesLast(bits: seq<bool>, data: seq<Byte>, trees: seq<Codes>, block: seq<bool>, content: Content,
                    own: seq<Codes>, pad: seq<bool>, m: nat, w: nat)
    requires Carries(bits, data, trees, m, w) && BlockSent(block, true, content, |bits|, m) && Brings(block, own, m)
      && ContentOk(data, content, w)
    requires |pad| < 8 && |bits + block + pad| % 8 == 0
    ensures var r := Inflate(false, [], bits + block + pad, m, w);
      if AnyRefused(trees + own) then r.Failed? else r == Finished(Yield(data, content), Aligned(pad))
    ensures TreesIn(bits + block + pad, 0, m) == trees + own
  {
    hide BlockSent, Brings, Yield, ContentOk, AnyRefused, TreesIn;
    RefusedIn(trees, own);
    assert bits + block + pad == bits + (block + pad);
    TreesAfter(block, true, content, own, pad, |bits|, m);
    assert own + [] == own;
    if AnyRefused(trees) {
      var h :| FailsAt(bits, h, m, w);
    } else {
      BlockAfter(bits, data, block, true, content, own, pad, m, w);
    }
  }

  /** Few enough tokens for all codes to be short. */
  const FEW := 1596

  /** The largest distance of a match, in a window of `w` bytes. */
  function Reach(w: nat): nat { if w < MIN_LOOKAHEAD then 0 else w - MIN_LOOKAHEAD }

  /** The bits carry the input up to `from`, if all blocks were sent `intact`; the tokens of all blocks stand for it,
      and with the tokens collected since, for the input up to `to`. */
  ghost predicate Progress(stream: seq<Byte>, from: int, to: int, sent: seq<Token>, tokens: seq<Token>, bits: seq<bool>,
                           trees: seq<Codes>, w: nat, intact: bool)
  {
    && 0 <= from <= to <= |stream| && |sent| + |tokens| <= to && Near(tokens, Reach(w))
    && Covers(sent, stream[..from]) && Covers(sent + tokens, stream[..to])
    && (intact ==> Carries(bits, stream[..from], trees, MAX_BITS, w)) && (|stream| < FEW ==> !AnyRefused(trees))
  }

  lemma ProgressMore(stream: seq<Byte>, more: seq<Byte>, from: int, to: int, sent: seq<Token>, tokens: seq<Token>,
                     bits: seq<bool>, trees: seq<Codes>, w: nat, intact: bool)
    requires Progress(stream, from, to, sent, tokens, bits, trees, w, intact) && stream <= more
    ensures Progress(more, from, to, sent, tokens, bits, trees, w, intact)
  {
    hide Covers, Carries, AnyRefused, Near;
    assert more[..from] == stream[..from] && more[..to] == stream[..to];
  }

  lemma ProgressLiteral(stream: seq<Byte>, from: int, to: int, sent: seq<Token>, tokens: seq<Token>, bits: seq<bool>,
                        trees: seq<Codes>, w: nat, intact: bool)
    requires Progress(stream, from, to, sent, tokens, bits, trees, w, intact) && to < |stream|
    ensures Progress(stream, from, to + 1, sent, tokens + [Literal(stream[to])], bits, trees, w, intact)
  {
    hide Covers, Carries, AnyRefused;
    CoversLiteral(sent + tokens, stream, to);
    assert sent + tokens + [Literal(stream[to])] == sent + (tokens + [Literal(stream[to])]);
  }

  lemma ProgressMatch(stream: seq<Byte>, from: int, to: int, sent: seq<Token>, tokens: seq<Token>, bits: seq<bool>,
                      trees: seq<Codes>, w: nat, intact: bool, dist: nat, len: nat)
    requires Progress(stream, from, to, sent, tokens, bits, trees, w, intact) && 1 <= dist <= to
      && Same(stream, to - dist, to, len) && len >= 1 && dist <= Reach(w)
    ensures Progress(stream, from, to + len, sent, tokens + [Match(len, dist)], bits, trees, w, intact)
  {
    hide Covers, Carries, AnyRefused;
    CoversMatch(sent + tokens, stream, to, dist, len);
    assert sent + tokens + [Match(len, dist)] == sent + (tokens + [Match(len, dist)]);
  }

  /** Whether coded or stored, a block adds the input it stands for. */
  lemma BlockCovers(stream: seq<Byte>, from: int, to: int, sent: seq<Token>, tokens: seq<Token>, bits: seq<bool>,
                    trees: seq<Codes>, w: nat, intact: bool, content: Content)
    requires Progress(stream, from, to, sent, tokens, bits, trees, w, intact)
    requires content == Coded(tokens) || content == Stored(stream[from..to])
    ensures ContentOk(stream[..from], content, w) && Yield(stream[..from], content) == stream[..to]
  {
    hide Carries, InReach, Expand, AnyRefused;
    ExpandConcat([], sent, tokens);
    assert stream[..from] + stream[from..to] == stream[..to];
  }

  lemma ProgressBlock(stream: seq<Byte>, from: int, to: int, sent: seq<Token>, tokens: seq<Token>, bits: seq<bool>,
                      trees: seq<Codes>, w: nat, intact: bool, block: seq<bool>, content: Content, own: seq<Codes>,
                      clean: bool)
    requires Progress(stream, from, to, sent, tokens, bits, trees, w, intact)
    requires clean ==> BlockSent(block, false, content, |bits|, MAX_BITS) && Brings(block, own, MAX_BITS)
    requires (content == Coded(tokens) || content == Stored(stream[from..to])) && (|tokens| < FEW ==> !AnyRefused(own))
    ensures Progress(stream, to, to, sent + tokens, [], bits + block, trees + own, w, intact && clean)
  {
    hide Carries, BlockSent, Brings, Covers, Yield, ContentOk, AnyRefused;
    BlockCovers(stream, from, to, sent, tokens, bits, trees, w, intact, content);
    if intact && clean { CarriesBlock(bits, stream[..from], trees, block, content, own, MAX_BITS, w); }
    RefusedIn(trees, own);
    assert sent + tokens + [] == sent + tokens;
  }

  lemma ProgressLast(stream: seq<Byte>, from: int, to: int, sent: seq<Token>, tokens: seq<Token>, bits: seq<bool>,
                     trees: seq<Codes>, w: nat, intact: bool, block: seq<bool>, content: Content, own: seq<Codes>,
                     pad: seq<bool>, clean: bool)
    requires Progress(stream, from, to, sent, tokens, bits, trees, w, intact)
    requires clean ==> BlockSent(block, true, content, |bits|, MAX_BITS) && Brings(block, own, MAX_BITS)
    requires (content == Coded(tokens) || content == Stored(stream[from..to])) && (|tokens| < FEW ==> !AnyRefused(own))
    requires |pad| == Padding(|bits + block|)
    ensures intact && clean ==> Made(bits + block + pad, stream[..to], trees + own, w)
    ensures (|stream| < FEW ==> !AnyRefused(trees + own)) && Covers(sent + tokens, stream[..to])
  {
    hide Carries, BlockSent, Brings, Covers, Yield, ContentOk, Inflate, AnyRefused, TreesIn;
    BlockCovers(stream, from, to, sent, tokens, bits, trees, w, intact, content);
    PaddingFills(|bits + block|);
    assert |bits + block + pad| == |bits + block| + |pad|;
    if intact && clean { CarriesLast(bits, stream[..from], trees, block, content, own, pad, MAX_BITS, w); }
    AlignedPad(|bits + block|, pad);
    RefusedIn(trees, own);
  }

  /** The bits inflate to the data and end there, or fail if the decoder refuses one of their trees. */
  ghost predicate Partly(bits: seq<bool>, data: seq<Byte>, trees: seq<Codes>, w: nat)
  {
    var r := Inflate(false, [], bits, MAX_BITS, w);
    TreesIn(bits, 0, MAX_BITS) == trees && if AnyRefused(trees) then r.Failed? else r == Starved(data)
  }

  /** The bits make a whole stream of the data, or one that fails if the decoder refuses one of its trees. */
  ghost predicate Made(bits: seq<bool>, data: seq<Byte>, trees: seq<Codes>, w: nat)
  {
    var r := Inflate(false, [], bits, MAX_BITS, w);
    TreesIn(bits, 0, MAX_BITS) == trees && if AnyRefused(trees) then r.Failed? else r == Finished(data, [])
  }

  lemma PaddingFills(n: nat)
    ensures Padding(n) < 8 && (n + Padding(n)) % 8 == 0
  {
  }

  lemma AlignedPad(n: nat, pad: seq<bool>)
    requires |pad| == Padding(n)
    ensures Aligned(pad) == []
  {
  }

  /** Bits that end on a byte boundary inflate to all the data they carry, and to nothing after it. */
  lemma CarriesWhole(bits: seq<bool>, data: seq<Byte>, trees: seq<Codes>, w: nat)
    requires Carries(bits, data, trees, MAX_BITS, w) && |bits| % 8 == 0
    ensures Partly(bits, data, trees, w)
  {
    hide AnyRefused;
    assert bits + [] == bits;
    assert TreesIn(bits + [], 0, MAX_BITS) == trees + TreesIn([], |bits|, MAX_BITS);
    assert trees + [] == trees;
    if AnyRefused(trees) {
      var h :| FailsAt(bits, h, MAX_BITS, w);
      assert Inflate(false, [], bits + [], MAX_BITS, w) == Failed(h);
    } else {
      assert Inflate(false, data, [], MAX_BITS, w) == Starved(data);
    }
  }

  /** Bytes are determined by their bits. */
  lemma {:induction false} BytesPrefix(a: seq<Byte>, b: seq<Byte>, t: seq<bool>)
    requires |a| <= |b| && BytesToBits(a) <= BytesToBits(b) + t
    ensures a <= b
    decreases |a|
  {
    hide ToBits;
    if a != [] {
      var x, y := ToBits(a[0], 8), ToBits(b[0], 8);
      var s := BytesToBits(b) + t;
      assert s[..8] == y && BytesToBits(a)[..8] == x;
      assert BytesToBits(a)[..8] == s[..8];
      assert s[8..] == BytesToBits(b[1..]) + t && BytesToBits(a)[8..] == BytesToBits(a[1..]);
      BytesPrefix(a[1..], b[1..], t);
      ByteOf(a[0]);
      ByteOf(b[0]);
      assert a == [a[0]] + a[1..] && b == [b[0]] + b[1..];
    }
  }

  lemma ByteOf(x: Byte)
    ensures Value(ToBits(x, 8)) == x
  {
    ValueToBits(x, 8);
    Pow2Values();
  }

  /** More bytes of the same bits. */
  lemma MoreBytes(out: seq<Byte>, pending: seq<Byte>, n: nat, t: seq<bool>)
    requires |out| <= n <= |pending| && BytesToBits(out) <= BytesToBits(pending) + t
    ensures out + pending[|out|..n] == pending[..n] && BytesToBits(pending[..n]) <= BytesToBits(pending) + t
  {
    BytesPrefix(out, pending, t);
    BytesConcat(pending[..n], pending[n..]);
    assert pending[..n] + pending[n..] == pending;
  }
}
