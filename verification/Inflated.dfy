/** What a deflate stream inflates to: every byte it yields, also when it is cut short or invalid. */
module Inflated {
  import opened Bits
  import opened BitWriter
  import opened Canonical
  import opened CodeLengths
  import opened DecodeTable
  import opened Header
  import opened SubTables
  import opened Tokens
  import opened Blocks
  import opened Stream

  /** All bytes yielded, and whether the stream ended (with the bits after it), was invalid, was cut short, or came to
      a match that reaches back further than the decoder is bound to remember. */
  datatype Outcome =
    | Finished(hist: seq<Byte>, rest: seq<bool>)
    | Failed(hist: seq<Byte>)
    | Starved(hist: seq<Byte>)
    | TooFar(hist: seq<Byte>)

  /** What was to come is still to come, unless it was to be a match too far back: then at least all before it has
      been yielded, and if the calls are `tight`, the match is refused. */
  ghost predicate Kept(was: Outcome, now: Outcome, hist: seq<Byte>, tight: bool)
  {
    now == was || (was.TooFar? && was.hist <= hist && (tight ==> now == Failed(was.hist)))
  }

  lemma KeptUnlessFar(was: Outcome, now: Outcome, h: seq<Byte>, hist: seq<Byte>, tight: bool)
    requires now == was || (was == TooFar(h) && (tight ==> now == Failed(h)))
    requires h <= hist
    ensures Kept(was, now, hist, tight)
  {
  }

  lemma KeptLoose(was: Outcome, now: Outcome, hist: seq<Byte>, tight: bool, tight2: bool)
    requires Kept(was, now, hist, tight) && (tight2 ==> tight)
    ensures Kept(was, now, hist, tight2)
  {
  }

  lemma KeptOn(a: Outcome, b: Outcome, c: Outcome, h: seq<Byte>, h2: seq<Byte>, tight: bool)
    requires Kept(a, b, h, tight) && Kept(b, c, h2, tight) && h <= h2
    ensures Kept(a, c, h2, tight)
  {
  }

  /** Bits from the next byte boundary on; the stream ends on one. */
  function Aligned(bs: seq<bool>): seq<bool> { bs[|bs| % 8..] }

  lemma AlignedTwice(bs: seq<bool>)
    ensures |Aligned(bs)| % 8 == 0 && Aligned(Aligned(bs)) == Aligned(bs)
  {
    var q := |bs| / 8;
    assert |bs| == 8 * q + |bs| % 8;
    assert |Aligned(bs)| == 8 * q;
  }

  lemma {:induction false} OrderShrinks(bs: seq<bool>, lens: seq<nat>, have: nat, ncode: nat)
    requires have <= ncode <= 19 == |lens|
    ensures var r := ReadOrder(bs, lens, have, ncode); r.Ok? ==> |r.rest| <= |bs| && |r.value| == 19
    decreases ncode - have
  {
    hide Value;
    if have < ncode && |bs| >= 3 {
      OrderIsPermutation();
      var r := Field(bs, 3);
      OrderShrinks(r.rest, lens[BL_ORDER[have] := r.value], have + 1, ncode);
    }
  }

  lemma {:induction false} LensShrinks(blens: seq<nat>, m: nat, bs: seq<bool>, have: seq<nat>, limit: nat)
    ensures var r := ReadLens(blens, m, bs, have, limit); r.Ok? ==> |r.rest| <= |bs|
    decreases limit - |have|
  {
    hide NextSymbol, Value;
    if |have| < limit {
      match NextSymbol(blens, m, bs)
      case NeedMore =>
      case Invalid => LensShrinks(blens, m, bs[1..], have + [0], limit);
      case Sym(s) =>
        var f := Field(bs[blens[s]..], ExtraBits(s));
        if f.Ok? {
          var r := Apply(have, Item(s, f.value), limit);
          if r.Lens? { LensShrinks(blens, m, f.rest, r.have, limit); }
        }
    }
  }

  /** The two trees, once the bit length code is known. */
  ghost function FromLens(r: Parse<seq<nat>>, m: nat, nlen: nat, ndist: nat): Parse<(seq<nat>, seq<nat>)>
  {
    match r
    case Short => Short
    case Bad => Bad
    case Ok(lens, rest) =>
      if |lens| != nlen + ndist || nlen <= 256 || lens[256] == 0 then Bad
      else if Rejected(LENS, lens[..nlen], m) || Rejected(DISTS, lens[nlen..], m) then Bad
      else Ok((lens[..nlen], lens[nlen..]), rest)
  }

  ghost function FromOrder(r: Parse<seq<nat>>, m: nat, nlen: nat, ndist: nat): Parse<(seq<nat>, seq<nat>)>
  {
    match r
    case Short => Short
    case Bad => Bad
    case Ok(blens, rest) =>
      if Rejected(CODES, blens, m) then Bad else FromLens(ReadLens(blens, m, rest, [], nlen + ndist), m, nlen, ndist)
  }

  lemma HeaderShrinks(bs: seq<bool>, m: nat)
    ensures var r := ReadHeader(bs, m); r.Ok? ==> |r.rest| <= |bs|
  {
    hide ReadOrder, ReadLens, Rejected, Value;
    if |bs| >= 14 {
      var nlen, ndist, ncode := Field(bs, 5).value + 257, Field(bs[5..], 5).value + 1, Field(bs[10..], 4).value + 4;
      assert bs[5..][5..] == bs[10..] && bs[10..][4..] == bs[14..];
      if nlen <= 286 && ndist <= 30 && ncode <= 19 {
        OrderShrinks(bs[14..], seq(19, _ => 0), 0, ncode);
        var o := ReadOrder(bs[14..], seq(19, _ => 0), 0, ncode);
        if o.Ok? { LensShrinks(o.value, m, o.rest, [], nlen + ndist); }
      }
    }
  }

  /** From the start of a block, or from the end of the last; `w` is how far back matches may reach. */
  ghost function Inflate(last: bool, hist: seq<Byte>, bs: seq<bool>, m: nat, w: nat): Outcome
    decreases |bs|, 0
  {
    if last then Finished(hist, Aligned(bs))
    else
      match Field(bs, 3)
      case Ok(v, bs1) =>
        if v / 2 == 0 then StoredBlock(v % 2 == 1, hist, bs1, m, w)
        else if v / 2 == 1 then Body(v % 2 == 1, FixedCodes(m), hist, bs1, w)
        else if v / 2 == 2 then
          HeaderShrinks(bs1, m);
          WithTrees(v % 2 == 1, hist, ReadHeader(bs1, m), m, w)
        else Failed(hist)
      case Short => Starved(hist)
      case Bad => Failed(hist)
  }

  /** Once the trees of a block are known. */
  ghost function WithTrees(last: bool, hist: seq<Byte>, r: Parse<(seq<nat>, seq<nat>)>, m: nat, w: nat): Outcome
    decreases if r.Ok? then |r.rest| else 0, 3
  {
    match r
    case Short => Starved(hist)
    case Bad => Failed(hist)
    case Ok(t, rest) => if Refused(t.0, t.1, m) then Failed(hist) else Body(last, Codes(t.0, t.1, m), hist, rest, w)
  }

  ghost function StoredBlock(last: bool, hist: seq<Byte>, bs: seq<bool>, m: nat, w: nat): Outcome
    decreases |bs|, 4
  {
    WholeBlock(last, hist, Aligned(bs), m, w)
  }

  /** A stored block from the byte boundary on. */
  ghost function WholeBlock(last: bool, hist: seq<Byte>, a: seq<bool>, m: nat, w: nat): Outcome
    decreases |a|, 3
  {
    if |a| < 32 then Starved(hist)
    else if Value(a[..16]) + Value(a[16..32]) != 0xffff then Failed(hist)
    else Bytes(last, Value(a[..16]), hist, a[32..], m, w)
  }

  /** `n` bytes as they are. */
  ghost function Bytes(last: bool, n: nat, hist: seq<Byte>, bs: seq<bool>, m: nat, w: nat): Outcome
    decreases |bs|, 2
  {
    if n == 0 then Inflate(last, hist, bs, m, w)
    else if |bs| < 8 then Starved(hist)
    else
      ValueBound(bs[..8]);
      Byte256();
      Bytes(last, n - 1, hist + [Value(bs[..8])], bs[8..], m, w)
  }

  /** Literals and matches up to the end of the block. */
  ghost function Body(last: bool, c: Codes, hist: seq<Byte>, bs: seq<bool>, w: nat): Outcome
    decreases |bs|, 2
  {
    StepShrinks(c, bs);
    AfterStep(last, c, hist, ReadStep(c, bs), w)
  }

  /** After one step: a token extends the history, unless it reaches back before its beginning. */
  ghost function AfterStep(last: bool, c: Codes, hist: seq<Byte>, r: Parse<Step>, w: nat): Outcome
    decreases if r.Ok? then |r.rest| + 1 else 0, 1
  {
    match r
    case Short => Starved(hist)
    case Bad => Failed(hist)
    case Ok(EndOfBlock, rest) => Inflate(last, hist, rest, c.m, w)
    case Ok(Tok(t), rest) =>
      if t.Match? && !(1 <= t.dist <= |hist|) then Failed(hist)
      else if t.Match? && t.dist > w then TooFar(hist)
      else Body(last, c, ExpandOne(hist, t), rest, w)
  }

  // Against the blocks the encoder sends.

  /** Every match stays within what has been yielded before it. */
  ghost predicate InReach(hist: seq<Byte>, tokens: seq<Token>)
    decreases tokens
  {
    tokens == [] || ((tokens[0].Match? ==> 1 <= tokens[0].dist <= |hist|)
      && InReach(ExpandOne(hist, tokens[0]), tokens[1..]))
  }

  /** No match reaches back further than `w`. */
  ghost predicate Near(tokens: seq<Token>, w: nat)
  {
    forall i :: 0 <= i < |tokens| && tokens[i].Match? ==> tokens[i].dist <= w
  }

  lemma {:induction false} BodyYields(last: bool, c: Codes, hist: seq<Byte>, bs: seq<bool>, w: nat)
    requires ReadBlock(c, bs).Ok? && InReach(hist, ReadBlock(c, bs).value) && Near(ReadBlock(c, bs).value, w)
    ensures var r := ReadBlock(c, bs);
      Body(last, c, hist, bs, w) == Inflate(last, Expand(hist, r.value), r.rest, c.m, w)
    decreases |bs|
  {
    hide ReadStep, Inflate;
    StepShrinks(c, bs);
    var r := ReadStep(c, bs);
    if r.value.Tok? {
      var t, tail := r.value.t, ReadBlock(c, r.rest);
      var tokens := [t] + tail.value;
      assert tokens[0] == t && tokens[1..] == tail.value;
      BodyYields(last, c, ExpandOne(hist, t), r.rest, w);
    }
  }

  lemma {:induction false} BytesYield(last: bool, n: nat, hist: seq<Byte>, bs: seq<bool>, m: nat, w: nat)
    requires ReadBytes(bs, n).Ok?
    ensures var r := ReadBytes(bs, n); Bytes(last, n, hist, bs, m, w) == Inflate(last, hist + r.value, r.rest, m, w)
    decreases n
  {
    hide Inflate, Value, Pow2;
    if n > 0 {
      ValueBound(bs[..8]);
      Byte256();
      var b := Value(bs[..8]);
      var tail := ReadBytes(bs[8..], n - 1);
      BytesYield(last, n - 1, hist + [b], bs[8..], m, w);
      assert hist + [b] + tail.value == hist + ([b] + tail.value);
    } else {
      assert hist + [] == hist;
    }
  }

  /** What a block adds to the history. */
  function Yield(hist: seq<Byte>, content: Content): seq<Byte>
  {
    match content
    case Stored(bytes) => hist + bytes
    case Coded(tokens) => Expand(hist, tokens)
  }

  ghost predicate ContentOk(hist: seq<Byte>, content: Content, w: nat)
  {
    content.Coded? ==> InReach(hist, content.tokens) && Near(content.tokens, w)
  }

  lemma PaddingIs(at: nat, n: nat)
    requires (at + n) % 8 == 0
    ensures Padding(at) == n % 8
  {
  }

  lemma StoredYields(last: bool, hist: seq<Byte>, bs: seq<bool>, at: nat, m: nat, w: nat)
    requires (at + |bs|) % 8 == 0 && ReadStored(bs, at).Ok?
    ensures var r := ReadStored(bs, at);
      StoredBlock(last, hist, bs, m, w) == Inflate(last, hist + r.value, r.rest, m, w)
  {
    hide Value, ReadBytes, Inflate, Bytes, Padding;
    assert Padding(at) == |bs| % 8 by { PaddingIs(at, |bs|); }
    var a := Aligned(bs);
    assert a[16..][..16] == a[16..32] && a[16..][16..] == a[32..];
    BytesYield(last, Value(a[..16]), hist, a[32..], m, w);
  }

  /** A block read is a block inflated, unless its trees are refused. */
  lemma BlockYields(hist: seq<Byte>, bs: seq<bool>, at: nat, m: nat, w: nat)
    requires (at + |bs|) % 8 == 0 && ReadAny(bs, at, m).Ok? && ContentOk(hist, ReadAny(bs, at, m).value.1, w)
    ensures var r := ReadAny(bs, at, m);
      Inflate(false, hist, bs, m, w) == if AnyRefused(OwnTrees(bs, m)) then Failed(hist)
        else Inflate(r.value.0, Yield(hist, r.value.1), r.rest, m, w)
  {
    hide Value, ReadStored, ReadBlock, ReadHeader, StoredBlock, Body, Expand, InReach, Refused, Near;
    var v, bs1 := Field(bs, 3).value, bs[3..];
    var last := v % 2 == 1;
    if v / 2 == 0 {
      StoredYields(last, hist, bs1, at + 3, m, w);
    } else if v / 2 == 1 {
      BodyYields(last, FixedCodes(m), hist, bs1, w);
    } else {
      var t := ReadHeader(bs1, m);
      RefusedOne(Codes(t.value.0, t.value.1, m));
      BodyYields(last, Codes(t.value.0, t.value.1, m), hist, t.rest, w);
    }
  }
}
