/** inflate.c: whether a match may reach back further than the window depends on how the output is cut. */
module Cutting {
  import opened Bits
  import opened BitWriter
  import opened DecodeTable
  import opened GenCodes
  import opened Header
  import opened SubTables
  import opened Tokens
  import opened TokenSteps
  import opened Blocks
  import opened Stream
  import opened Inflated
  import opened Outcomes
  import opened Compressed
  import opened FlushBlock
  import opened Overlay
  import opened Window
  import opened Inflater
  import Deflater
  import Deflate

  /** The result of a decoder that has come to rest with nothing left to read. */
  lemma AtRest(inf: Inflater, hist: seq<Byte>)
    requires inf.Valid() && (inf.Final() || inf.Starving())
    ensures var o := inf.Will(hist, []);
      o.hist == hist && !o.TooFar? && (inf.mode == DONE <==> o.Finished?) && (inf.mode == BAD <==> o.Failed?)
  {
    hide Inflater.Valid, Inflater.Will, Inflater.Starving;
    EndsAt(inf, hist);
  }

  /** All of the output in one call: the size of the window makes no difference. */
  method AtOnce(packed: seq<Byte>, room: nat, size: nat) returns (yielded: seq<Byte>, mode: Mode)
    requires size >= 1
    ensures var far := Inflate(false, [], BytesToBits(packed), MAXBITS, WSIZE);
      room > |far.hist| ==> yielded == far.hist && (mode == DONE <==> far.Finished?) && (mode == BAD <==> far.Failed?)
  {
    hide Inflate, BytesToBits, Inflater.Valid, Inflater.Starving, Inflater.Will, Inflater.Final;
    var inf := new Inflater(WSIZE);
    var wnd := new Window(size);
    StartsAt(inf, BytesToBits(packed));
    InflateGrows(false, [], BytesToBits(packed), MAXBITS, WSIZE);
    var out := new Byte[room];
    var put := inf.Call(wnd, out, packed, false, [], []);
    yielded, mode := out[..put], inf.mode;
    assert [] + yielded == yielded;
    inf.WillGrow(yielded, []);
    if inf.Final() || inf.Starving() { AtRest(inf, yielded); }
  }

  /** One byte of output in each call, until one comes back with none: a match that reaches back further than the window
      is refused. */
  method ByteByByte(packed: seq<Byte>, most: nat, size: nat) returns (yielded: seq<Byte>, mode: Mode)
    requires size >= 1
    ensures var near := Inflate(false, [], BytesToBits(packed), MAXBITS, size);
      most > |near.hist| ==>
        && yielded == near.hist && (mode == DONE <==> near.Finished?)
        && (mode == BAD <==> near.Failed? || near.TooFar?)
  {
    hide Inflate, BytesToBits, Inflater.Valid, Inflater.Starving, Inflater.Will, Inflater.Final, Kept, Ring;
    var inf := new Inflater(size);
    var wnd := new Window(size);
    StartsAt(inf, BytesToBits(packed));
    ghost var near := Inflate(false, [], BytesToBits(packed), MAXBITS, size);
    var input := packed;
    yielded := [];
    KeptUnlessFar(near, near, [], [], true);
    var going := true;
    while going && |yielded| < most
      invariant inf.Valid() && inf.Remembers(wnd, yielded) && wnd.window.Length == inf.reach
      invariant Kept(near, inf.Will(yielded, BytesToBits(input) + []), yielded, true)
      invariant !going ==> input == [] && (inf.Final() || inf.Starving())
      decreases going, most - |yielded|
    {
      var out := new Byte[1];
      ghost var now, h := inf.Will(yielded, BytesToBits(input) + []), yielded;
      var put := inf.Call(wnd, out, input, false, yielded, []);
      yielded, input := yielded + out[..put], [];
      NoCalls(inf, yielded, []);
      KeptOn(near, now, inf.Will(yielded, []), h, yielded, true);
      going := put == 1;
    }
    mode := inf.mode;
    inf.WillGrow(yielded, BytesToBits(input) + []);
    if !going { AtRest(inf, yielded); }
    KeptMeans(near, inf.Will(yielded, BytesToBits(input) + []), yielded);
  }

  lemma KeptMeans(was: Outcome, now: Outcome, hist: seq<Byte>)
    requires Kept(was, now, hist, true) && hist <= now.hist
    ensures now == was || (was.TooFar? && now == Failed(was.hist))
    ensures |hist| <= |was.hist|
  {
  }

  /** A whole stream decodes the same way in one call and byte by byte, if and only if no match in it reaches back
      further than the window. */
  method CutMatters(packed: seq<Byte>, room: nat, size: nat)
    returns (whole: Mode, all: seq<Byte>, apart: Mode, part: seq<Byte>)
    requires size >= 1
    ensures var bits := BytesToBits(packed);
      var near, far := Inflate(false, [], bits, MAXBITS, size), Inflate(false, [], bits, MAXBITS, WSIZE);
      far.Finished? && room > |far.hist| ==>
        && whole == DONE && all == far.hist && part == near.hist && apart == (if near.TooFar? then BAD else DONE)
        && ((whole, all) == (apart, part) <==> !near.TooFar?)
  {
    hide Inflate, BytesToBits;
    InflateGrows(false, [], BytesToBits(packed), MAXBITS, WSIZE);
    if size <= WSIZE {
      InflateWider(false, [], BytesToBits(packed), MAXBITS, size, WSIZE);
    } else {
      InflateWider(false, [], BytesToBits(packed), MAXBITS, WSIZE, size);
    }
    all, whole := AtOnce(packed, room, size);
    part, apart := ByteByByte(packed, room, size);
  }

  // A stream with such a match.

  /** A block in which a match reaches too far back. */
  lemma {:induction false} BodyFar(last: bool, c: Codes, hist: seq<Byte>, bs: seq<bool>, w: nat)
    requires ReadBlock(c, bs).Ok? && InReach(hist, ReadBlock(c, bs).value) && !Near(ReadBlock(c, bs).value, w)
    ensures Body(last, c, hist, bs, w).TooFar?
    decreases |bs|
  {
    hide ReadStep, Inflate;
    StepShrinks(c, bs);
    var r := ReadStep(c, bs);
    if r.value.Tok? {
      var t, tail := r.value.t, ReadBlock(c, r.rest);
      var tokens := [t] + tail.value;
      assert tokens[0] == t && tokens[1..] == tail.value;
      if t.Match? ==> t.dist <= w {
        assert forall i :: 0 <= i < |tail.value| ==> tokens[i + 1] == tail.value[i];
        BodyFar(last, c, ExpandOne(hist, t), r.rest, w);
      }
    }
  }

  lemma BlockFar(hist: seq<Byte>, bs: seq<bool>, at: nat, m: nat, w: nat)
    requires ReadAny(bs, at, m).Ok? && ReadAny(bs, at, m).value.1.Coded? && !AnyRefused(OwnTrees(bs, m))
    requires var tokens := ReadAny(bs, at, m).value.1.tokens; InReach(hist, tokens) && !Near(tokens, w)
    ensures Inflate(false, hist, bs, m, w).TooFar?
  {
    hide Value, ReadStored, ReadBlock, ReadHeader, StoredBlock, Body, Expand, InReach, Refused, Near;
    var v, bs1 := Field(bs, 3).value, bs[3..];
    var last := v % 2 == 1;
    if v / 2 == 1 {
      BodyFar(last, FixedCodes(m), hist, bs1, w);
    } else if v / 2 == 2 {
      var t := ReadHeader(bs1, m);
      RefusedOne(Codes(t.value.0, t.value.1, m));
      BodyFar(last, Codes(t.value.0, t.value.1, m), hist, t.rest, w);
    }
  }

  /** 257 literals and a match that reaches back to the first of them. */
  function FarTokens(): seq<Token> { Zeros(257) + [Match(3, 257)] }

  function Zeros(n: nat): (ts: seq<Token>)
    ensures |ts| == n && forall i :: 0 <= i < n ==> ts[i] == Literal(0)
  {
    seq(n, _ => Literal(0))
  }

  lemma {:induction false} ZerosReach(h: seq<Byte>, n: nat)
    ensures InReach(h, Zeros(n)) && |Expand(h, Zeros(n))| == |h| + n
    decreases n
  {
    if n > 0 {
      assert Zeros(n)[1..] == Zeros(n - 1);
      ZerosReach(h + [0], n - 1);
    }
  }

  lemma FarTokensReach()
    ensures forall i :: 0 <= i < |FarTokens()| ==> TokenOk(FarTokens()[i])
    ensures InReach([], FarTokens()) && Near(FarTokens(), WSIZE) && !Near(FarTokens(), 256) && |FarTokens()| == 258
  {
    hide Expand;
    ZerosReach([], 257);
    ExpandConcat([], Zeros(257), [Match(3, 257)]);
    assert [Match(3, 257)][1..] == [];
    assert FarTokens()[257] == Match(3, 257);
  }

  /** A stream of one block with these tokens and the static codes. */
  ghost predicate FarStream(bits: seq<bool>)
  {
    && Inflate(false, [], bits, MAXBITS, 256).TooFar? && |Inflate(false, [], bits, MAXBITS, WSIZE).hist| == 260
    && Inflate(false, [], bits, MAXBITS, WSIZE).Finished?
  }

  lemma IsFarStream(bits: seq<bool>, own: seq<Codes>, pad: seq<bool>)
    requires BlockSent(bits, true, Coded(FarTokens()), 0, MAX_BITS) && Brings(bits, own, MAX_BITS) && !AnyRefused(own)
    requires |pad| < 8 && |bits + pad| % 8 == 0
    ensures FarStream(bits + pad)
  {
    hide FarTokens, ReadAny, InReach, Expand, Near, OwnTrees, AnyRefused;
    FarTokensReach();
    FarSize();
    assert ReadAny(bits + pad, 0, MAX_BITS).value == (true, Coded(FarTokens()));
    BlockYields([], bits + pad, 0, MAX_BITS, WSIZE);
    BlockFar([], bits + pad, 0, MAX_BITS, 256);
  }

  lemma FarSize()
    ensures |Expand([], FarTokens())| == 260
  {
    ZerosReach([], 257);
    var h := Expand([], Zeros(257));
    ExpandConcat([], Zeros(257), [Match(3, 257)]);
    assert [Match(3, 257)][1..] == [];
    assert Expand(h, [Match(3, 257)]) == Copied(h, 257, 3);
  }

  /** The encoder makes it. */
  method PackFar() returns (packed: seq<Byte>)
    ensures FarStream(BytesToBits(packed))
  {
    hide Encoder.Valid, Encoder.Separate, Encoder.Tokens, TokenOk, BitWriter.Sent, BitWriter.Valid, FarTokens, OwnSize,
         StaticSize, BlockSent, Brings, BestWay, TreesFor, IsStatic, ToBits, BytesToBits, AnyRefused, Intact, FarStream;
    var e, slt, sdt := Deflater.NewEncoder(0x8000);
    var w := new BitWriter();
    FarTokensReach();
    Collect(e, FarTokens());
    ghost var bits, content, own, built;
    var clean;
    bits, content, own, built, clean := e.FlushBlock(w, slt, sdt, Null, 0, true, 6, true);
    packed := w.pending;
    ghost var pad := ToBits(0, Padding(|[] + bits|));
    Deflate.WholeBytes(w);
    PaddingFills(|bits|);
    assert [] + bits == bits;
    FewThrough(Sending(FarTokens(), Null, content, own, built, 0), true, 0x8000);
    IsFarStream(bits, own, pad);
  }

  /** With a window of 256 bytes, the stream is decoded in one call and refused byte by byte. */
  method FarDepends() returns (packed: seq<Byte>, together: Mode, apart: Mode)
    ensures FarStream(BytesToBits(packed)) && together == DONE && apart == BAD
  {
    hide Inflate, BytesToBits;
    packed := PackFar();
    var all, part;
    together, all, apart, part := CutMatters(packed, 300, 256);
  }
}
