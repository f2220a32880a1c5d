/** inffast.c: decoding tokens without checking input and output at every step, while six bytes of input and
    258 bytes of room are left. */
module InflateFast {
  import opened Bits
  import opened BitWriter
  import opened BitReader
  import opened Canonical
  import opened DecodeTable
  import opened InflateTable
  import opened Header
  import opened Tokens
  import opened Blocks
  import opened Inflated
  import opened SymbolReader
  import opened TokenSteps
  import opened Window

  /** Add two bytes to the accumulator if it holds fewer bits than the longest code has. */
  method PullTwo(r: BitReader)
    requires r.Valid() && (r.bits < 15 ==> r.next + 2 <= |r.input|)
    modifies r
    ensures r.Valid() && r.input == old(r.input) && r.Ahead() == old(r.Ahead()) && old(r.Held()) <= r.Held()
    ensures if old(r.bits) < 15 then r.next == old(r.next) + 2 && r.bits == old(r.bits) + 16
      else r.next == old(r.next) && r.bits == old(r.bits)
  {
    if r.bits < 15 {
      var ok := r.PullByte();
      ok := r.PullByte();
    }
  }

  /** Extra bits, pulling a byte at a time as far as needed. */
  method FastField(r: BitReader, n: nat) returns (v: nat)
    requires r.Valid() && n <= 15 && (r.bits < n ==> r.next + 1 <= |r.input|)
      && (r.bits + 8 < n ==> r.next + 2 <= |r.input|)
    modifies r
    ensures r.Valid() && r.input == old(r.input)
    ensures n <= |old(r.Ahead())| && v == Value(old(r.Ahead())[..n]) && r.Ahead() == old(r.Ahead())[n..]
    ensures r.next == old(r.next) + if old(r.bits) < n then if old(r.bits) + 8 < n then 2 else 1 else 0
    ensures r.bits == old(r.bits) + 8 * (r.next - old(r.next)) - n
  {
    if r.bits < n {
      var ok := r.PullByte();
      if r.bits < n {
        ok := r.PullByte();
      }
    }
    v := r.Take(n);
  }

  /** A symbol takes more bits than any that do not determine it. */
  ghost predicate TakesMore(lens: seq<nat>, m: nat, held: seq<bool>, n: nat)
  {
    forall k :: 0 <= k <= |held| && NextSymbol(lens, m, held[..k]).NeedMore? ==> n > k
  }

  /** An entry found after `drop` bits stands for the next symbol. */
  ghost predicate Hits(ty: CodeType, lens: seq<nat>, m: nat, held: seq<bool>, rest: seq<bool>, here: Entry, drop: nat)
  {
    && (here.op == 0 || 16 <= here.op) && 1 <= drop <= m && drop <= |held| && TakesMore(lens, m, held, drop)
    && Took(ty, lens, m, here, held + rest, (held + rest)[drop..])
  }

  /** One or two look-ups find it. */
  lemma FastLookup(ty: CodeType, lens: seq<nat>, m: nat, t: seq<Entry>, root: nat, held: seq<bool>, rest: seq<bool>)
    requires TableFor(ty, lens, m, t, root) && m <= |held|
    ensures Peek(held, root) < |t|
    ensures var e := t[Peek(held, root)];
      if e.op == 0 || 16 <= e.op then Hits(ty, lens, m, held, rest, e, e.bits)
      else
        && e.bits <= |held| && e.val + Peek(held[e.bits..], e.op) < |t|
        && var f := t[e.val + Peek(held[e.bits..], e.op)]; Hits(ty, lens, m, held, rest, f, e.bits + f.bits)
  {
    hide TableFor, NextSymbol, SymbolAction, Took, TakesMore;
    FastFound(ty, lens, m, t, root, held);
    TakeSymbol(ty, lens, m, t, root, held, rest, |held|, Lookup(t, root, held).0, Lookup(t, root, held).1);
    RootLink(ty, lens, m, t, root, held);
  }

  /** With as many bits held as the longest code has, one or two look-ups find the symbol. */
  method FastSymbol(r: BitReader, t: seq<Entry>, root: nat, ghost ty: CodeType, ghost lens: seq<nat>, ghost m: nat)
    returns (here: Entry)
    requires r.Valid() && TableFor(ty, lens, m, t, root) && m <= r.bits
    modifies r
    ensures r.Valid() && r.input == old(r.input) && r.next == old(r.next) && r.bits < old(r.bits) <= r.bits + m
    ensures Took(ty, lens, m, here, old(r.Ahead()), r.Ahead()) && (here.op == 0 || 16 <= here.op)
    ensures TakesMore(lens, m, old(r.Held()), old(r.bits) - r.bits)
  {
    hide TableFor, NextSymbol, Peek, LowBits, Took, TakesMore, BitReader.Ahead;
    ghost var held, rest, bs := r.Held(), BytesToBits(r.input[r.next..]), r.Ahead();
    Sizes(r);
    FastLookup(ty, lens, m, t, root, held, rest);
    Shown(r.hold, r.bits, root);
    here := t[LowBits(r.hold, root)];
    r.DropBits(here.bits);
    if here.op != 0 && here.op < 16 {
      Shown(r.hold, r.bits, here.op);
      var last := here;
      here := t[last.val + LowBits(r.hold, last.op)];
      r.DropBits(here.bits);
      DropTwice(bs, last.bits, here.bits);
    }
  }

  lemma DropTwice(bs: seq<bool>, a: nat, b: nat)
    requires a + b <= |bs|
    ensures bs[a..][b..] == bs[a + b..]
  {
  }

  /** The look-up takes at least one bit, no more than the longest code, and more than any prefix that does not
      determine the symbol. */
  lemma FastFound(ty: CodeType, lens: seq<nat>, m: nat, t: seq<Entry>, root: nat, held: seq<bool>)
    requires TableFor(ty, lens, m, t, root) && m <= |held|
    ensures Pow2(root) <= |t|
    ensures var (here, drop) := Lookup(t, root, held);
      && 1 <= drop <= m && (here.op == 0 || 16 <= here.op) && t[Peek(held, root)].bits <= drop
      && TakesMore(lens, m, held, drop)
  {
    hide Kraft, CodeBits, SymbolAction, Leads, Pow2;
    TableReads(ty, lens, m, t, root, held);
    assert !NextSymbol(lens, m, held).NeedMore? by {
      if NextSymbol(lens, m, held).NeedMore? { FewBits(ty, lens, m, t, root, held); }
    }
    RootLink(ty, lens, m, t, root, held);
    var drop := Lookup(t, root, held).1;
    forall k | drop <= k <= |held| ensures !NextSymbol(lens, m, held[..k]).NeedMore? {
      var b := held[..k];
      match NextSymbol(lens, m, held)
      case Sym(s) =>
        assert held[..lens[s]] == b[..lens[s]];
        assert Decodes(lens, b, s);
      case Invalid =>
        assert b != [];
    }
  }

  /** The next symbol, with two bytes pulled before if that may be needed. */
  method FastCode(r: BitReader, t: seq<Entry>, root: nat, ghost ty: CodeType, ghost lens: seq<nat>, ghost m: nat)
    returns (here: Entry)
    requires r.Valid() && TableFor(ty, lens, m, t, root) && m <= 15 && (r.bits < 15 ==> r.next + 2 <= |r.input|)
    modifies r
    ensures r.Valid() && r.input == old(r.input) && r.next == old(r.next) + if old(r.bits) < 15 then 2 else 0
    ensures Took(ty, lens, m, here, old(r.Ahead()), r.Ahead()) && (here.op == 0 || 16 <= here.op)
    ensures |r.Ahead()| < |old(r.Ahead())| <= |r.Ahead()| + m
      && r.Ahead() == old(r.Ahead())[|old(r.Ahead())| - |r.Ahead()|..]
    ensures r.bits == old(r.bits) + 8 * (r.next - old(r.next)) - (|old(r.Ahead())| - |r.Ahead()|)
    ensures old(NextSymbol(lens, m, r.Held()).NeedMore?) ==> |old(r.Ahead())| - |r.Ahead()| > old(r.bits)
  {
    hide TableFor, NextSymbol, SymbolAction, Took, ToBits, BytesToBits, BitReader.Ahead, BitReader.Held;
    ghost var bs, held0 := r.Ahead(), r.Held();
    Sizes(r);
    PullTwo(r);
    Sizes(r);
    assert r.Held()[..|held0|] == held0;
    here := FastSymbol(r, t, root, ty, lens, m);
    Sizes(r);
    Suffix(ty, lens, m, here, bs, r.Ahead());
  }

  /** How a step ended: ready for the next, at the end of the block, or in an error. */
  datatype Went = Go | Ended | Error

  /** Bytes a distance of at most 15 and 13 bits takes beyond the bits held. */
  function DistBytes(bits: nat): nat { if bits < 4 then 4 else if bits < 15 then 3 else 2 }

  /** The distance after a length, unless its code is invalid. */
  method FastDistance(r: BitReader, dcode: seq<Entry>, dbits: nat, ghost c: Codes, ghost len: nat,
                      ghost future: seq<bool>)
    returns (ok: bool, dist: nat)
    requires r.Valid() && TableFor(DISTS, c.dlens, c.m, dcode, dbits) && c.m <= 15
      && r.next + DistBytes(r.bits) <= |r.input|
    modifies r
    ensures r.Valid() && r.input == old(r.input) && r.bits <= Max(old(r.bits), 30)
    ensures old(r.next) <= r.next <= old(r.next) + DistBytes(old(r.bits))
    ensures if ok then ReadDist(c, old(r.Ahead()) + future, len) == Ok(Tok(Match(len, dist)), r.Ahead() + future)
      else ReadDist(c, old(r.Ahead()) + future, len) == Bad
    ensures ok ==> 1 <= dist <= WSIZE
    ensures |r.Ahead()| <= |old(r.Ahead())| && r.Ahead() == old(r.Ahead())[|old(r.Ahead())| - |r.Ahead()|..]
  {
    hide TableFor, NextSymbol, SymbolAction, Took, Value, Pow2, BitReader.Ahead, BitReader.Held, ReadDist;
    ghost var bs := r.Ahead();
    var here := FastCode(r, dcode, dbits, DISTS, c.dlens, c.m);
    ghost var bs1 := r.Ahead();
    DistTaken(c, dcode, dbits, here, bs, bs1, future, len);
    if (here.op / 16) % 2 != 1 { return false, 0; }
    var extra := here.op % 16;
    var v := FastField(r, extra);
    FieldAhead(bs1, future, extra);
    ValueBound(bs1[..extra]);
    return true, here.val + v;
  }

  /** A match whose length base has been found: at most `put0 + 258` bytes are there afterwards. */
  method FastMatch(r: BitReader, base: nat, extra: nat, dcode: seq<Entry>, dbits: nat, wnd: Window, out: array<Byte>,
                   put0: nat,
                   ghost last: bool, ghost c: Codes, ghost hist0: seq<Byte>, ghost future: seq<bool>,
                   ghost w: nat)
    returns (put: nat, went: Went)
    requires r.Valid() && TableFor(DISTS, c.dlens, c.m, dcode, dbits) && c.m <= 15
    requires extra <= 5 && base >= 3 && base + Pow2(extra) <= 259 && put0 + 258 <= out.Length
    requires r.next + MatchBytes(r.bits, extra) <= |r.input|
    requires wnd.Holds(hist0) && out != wnd.window && (wnd.wsize == 0 ==> hist0 == [])
    requires wnd.window.Length == w || hist0 == []
    modifies r, out
    ensures r.Valid() && r.input == old(r.input) && r.bits <= Max(old(r.bits), 30)
    ensures old(r.next) <= r.next <= old(r.next) + MatchBytes(old(r.bits), extra) && put0 <= put <= put0 + 258
      && old(out[..put0]) == out[..put0]
    ensures var after := old(AfterStep(last, c, hist0 + out[..put0], ReadMatch(c, r.Ahead() + future, base, extra),
      w));
      !went.Ended? && Kept(after, Next(went, hist0 + out[..put], last, c, r.Ahead() + future, w),
        hist0 + out[..put], false)
    ensures |r.Ahead()| <= |old(r.Ahead())| && r.Ahead() == old(r.Ahead())[|old(r.Ahead())| - |r.Ahead()|..]
  {
    hide TableFor, NextSymbol, Value, Pow2, ToBits, BytesToBits, ReadDist, Body, Inflate, Copied, Ring, Window.Holds,
         BitReader.Ahead, BitReader.Held;
    ghost var bs := r.Ahead();
    put := put0;
    var v := FastField(r, extra);
    FieldAhead(bs, future, extra);
    ValueBound(bs[..extra]);
    var len := base + v;
    var ok, dist := FastDistance(r, dcode, dbits, c, len, future);
    if !ok { return put, Error; }
    wnd.HaveAll(hist0);
    ok, put := wnd.FastCopy(out, put0, dist, len, hist0);
    if !ok { return put, Error; }
    return put, Go;
  }

  /** The same with the extra bits of the length before it. */
  function MatchBytes(bits: nat, extra: nat): nat
    requires extra <= 8
  {
    if bits < extra then 1 + DistBytes(bits + 8 - extra) else DistBytes(bits - extra)
  }

  /** One literal, match or end of block. */
  method FastStep(r: BitReader, lcode: seq<Entry>, lbits: nat, dcode: seq<Entry>, dbits: nat, wnd: Window,
                  out: array<Byte>, put0: nat,
                  ghost last: bool, ghost c: Codes, ghost hist0: seq<Byte>, ghost future: seq<bool>,
                   ghost w: nat)
    returns (put: nat, went: Went)
    requires r.Valid() && TableFor(LENS, c.llens, c.m, lcode, lbits) && TableFor(DISTS, c.dlens, c.m, dcode, dbits)
      && c.m <= 15
    requires r.next + 6 <= |r.input| && put0 + 258 <= out.Length && r.bits <= 30
    requires wnd.Holds(hist0) && out != wnd.window && (wnd.wsize == 0 ==> hist0 == [])
    requires wnd.window.Length == w || hist0 == []
    modifies r, out
    ensures r.Valid() && r.input == old(r.input) && r.bits <= 30 && old(r.next) <= r.next <= old(r.next) + 6
    ensures put0 <= put <= put0 + 258 && old(out[..put0]) == out[..put0]
    ensures var before := old(Body(last, c, hist0 + out[..put0], r.Ahead() + future, w));
      Kept(before, Next(went, hist0 + out[..put], last, c, r.Ahead() + future, w), hist0 + out[..put], false)
    ensures |r.Ahead()| < |old(r.Ahead())| && r.Ahead() == old(r.Ahead())[|old(r.Ahead())| - |r.Ahead()|..]
    ensures old(NextSymbol(c.llens, c.m, r.Held()).NeedMore?) ==> |old(r.Ahead())| - |r.Ahead()| > old(r.bits)
  {
    hide TableFor, NextSymbol, SymbolAction, Took, Value, Pow2, ToBits, BytesToBits, ReadDist, ReadMatch, Body, Inflate,
         Copied, Ring, BitReader.Ahead, BitReader.Held;
    ghost var bs, h0 := r.Ahead(), hist0 + out[..put0];
    put := put0;
    var here := FastCode(r, lcode, lbits, LENS, c.llens, c.m);
    ghost var bs1 := r.Ahead();
    LenTaken(c, lcode, lbits, here, bs, bs1, future);
    BodyStep(last, c, h0, bs + future, w);
    if here.op == 0 {
      out[put] := here.val;
      put := put + 1;
      assert hist0 + out[..put] == h0 + [here.val];
      went := Go;
    } else if (here.op / 16) % 2 == 1 {
      put, went := FastMatch(r, here.val, here.op % 16, dcode, dbits, wnd, out, put, last, c, hist0, future, w);
    } else if (here.op / 32) % 2 == 1 {
      went := Ended;
    } else {
      went := Error;
    }
  }

  lemma Middle(s: seq<bool>, a: seq<bool>, b: seq<bool>, z: seq<bool>)
    requires s == a + (b + z)
    ensures s[|a|..|a| + |b|] == b
  {
  }

  lemma BytesThree(p: seq<Byte>, q: seq<Byte>, w: seq<Byte>)
    ensures BytesToBits(p + (q + w))[8 * |p|..8 * |p| + 8 * |q|] == BytesToBits(q)
  {
    hide BytesToBits;
    BytesConcat(p, q + w);
    BytesConcat(q, w);
    Middle(BytesToBits(p + (q + w)), BytesToBits(p), BytesToBits(q), BytesToBits(w));
  }

  lemma InThree(x: seq<Byte>, i: nat, j: nat)
    requires i <= j <= |x|
    ensures x == x[..i] + (x[i..j] + x[j..])
  {
  }

  /** The last whole bytes held are the last bytes pulled, because everything ahead is the rest of what was. */
  lemma LastBytesHeld(held0: seq<bool>, input: seq<Byte>, next0: nat, held: seq<bool>, next: nat, n: nat)
    requires next0 + n <= next <= |input| && 8 * n <= |held|
    requires var s0, ahead := held0 + BytesToBits(input[next0..]), held + BytesToBits(input[next..]);
      |ahead| <= |s0| && ahead == s0[|s0| - |ahead|..]
    ensures held[|held| - 8 * n..] == BytesToBits(input[next - n..next])
  {
    hide BytesToBits;
    var x := input[next0..];
    var i, all := next - n - next0, BytesToBits(x);
    var s0, ahead := held0 + all, held + BytesToBits(input[next..]);
    InThree(x, i, i + n);
    BytesThree(x[..i], x[i..i + n], x[i + n..]);
    assert x[i..i + n] == input[next - n..next];
    SliceOf(s0, ahead, held, BytesToBits(input[next..]), held0, all, 8 * i, 8 * n);
  }

  lemma SliceOf(s0: seq<bool>, ahead: seq<bool>, held: seq<bool>, more: seq<bool>, held0: seq<bool>, all: seq<bool>,
                a: nat, n: nat)
    requires s0 == held0 + all && ahead == held + more && |ahead| <= |s0| && ahead == s0[|s0| - |ahead|..]
    requires n <= |held| && a + n + |more| == |all|
    ensures held[|held| - n..] == all[a..a + n]
  {
    var d, u, v := |s0| - |ahead|, held[|held| - n..], all[a..a + n];
    forall t | 0 <= t < n ensures u[t] == v[t] {
      assert ahead[|held| - n + t] == s0[d + |held| - n + t];
    }
  }

  /** Between steps: what is ahead is the rest of `s0`, and fewer bits are held than were pulled since, but for the
      last byte; unless nothing has been done yet. */
  ghost predicate Underway(r: BitReader, s0: seq<bool>, input: seq<Byte>, next0: nat, bits0: nat, c: Codes)
    reads r
  {
    && r.Valid() && r.input == input && r.bits <= 30 && next0 <= r.next
    && |r.Ahead()| <= |s0| && r.Ahead() == s0[|s0| - |r.Ahead()|..]
    && (r.bits < 8 * (r.next - next0) + 8
        || (r.Ahead() == s0 && r.bits == bits0 && r.next == next0 && NextSymbol(c.llens, c.m, r.Held()).NeedMore?))
  }

  lemma SetOut(r: BitReader, c: Codes)
    requires r.Valid() && (r.bits < 8 || (r.bits < c.m <= 15 && NextSymbol(c.llens, c.m, r.Held()).NeedMore?))
    ensures Underway(r, r.Ahead(), r.input, r.next, r.bits, c)
    ensures r.Ahead() == r.Held() + BytesToBits(r.input[r.next..]) && r.next <= |r.input|
  {
    hide NextSymbol, Value, Pow2, ToBits, BytesToBits;
  }

  lemma SuffixOf(s: seq<bool>, a: seq<bool>, b: seq<bool>)
    requires |a| <= |s| && a == s[|s| - |a|..] && |b| <= |a| && b == a[|a| - |b|..]
    ensures b == s[|s| - |b|..]
  {
  }

  /** One more step. */
  method FastTurn(r: BitReader, lcode: seq<Entry>, lbits: nat, dcode: seq<Entry>, dbits: nat, wnd: Window,
                  out: array<Byte>, put0: nat,
                  ghost last: bool, ghost c: Codes, ghost hist0: seq<Byte>, ghost future: seq<bool>,
                  ghost w: nat, ghost s0: seq<bool>, ghost next0: nat, ghost bits0: nat)
    returns (put: nat, went: Went)
    requires TableFor(LENS, c.llens, c.m, lcode, lbits) && TableFor(DISTS, c.dlens, c.m, dcode, dbits) && c.m <= 15
    requires Underway(r, s0, r.input, next0, bits0, c) && r.next + 6 <= |r.input| && put0 + 258 <= out.Length
    requires wnd.Holds(hist0) && out != wnd.window && (wnd.wsize == 0 ==> hist0 == [])
    requires wnd.window.Length == w || hist0 == []
    modifies r, out
    ensures r.Valid() && r.input == old(r.input) && |r.Ahead()| < |old(r.Ahead())|
    ensures Underway(r, s0, r.input, next0, bits0, c) && r.bits < 8 * (r.next - next0) + 8
    ensures put0 <= put <= put0 + 258 && old(out[..put0]) == out[..put0]
    ensures var before := old(Body(last, c, hist0 + out[..put0], r.Ahead() + future, w));
      Kept(before, Next(went, hist0 + out[..put], last, c, r.Ahead() + future, w), hist0 + out[..put], false)
  {
    hide TableFor, NextSymbol, Value, Pow2, ToBits, BytesToBits, Body, Inflate, Ring, BitReader.Ahead, BitReader.Held,
         Kept, Next;
    ghost var a := r.Ahead();
    Sizes(r);
    put, went := FastStep(r, lcode, lbits, dcode, dbits, wnd, out, put0, last, c, hist0, future, w);
    Sizes(r);
    SuffixOf(s0, a, r.Ahead());
  }

  /** Decode as long as there is enough input and room, then return the whole bytes not used. On entry the
      accumulator may hold a byte or more only if that does not determine the next symbol. */
  method InflateFast(r: BitReader, lcode: seq<Entry>, lbits: nat, dcode: seq<Entry>, dbits: nat, wnd: Window,
                     out: array<Byte>, put0: nat,
                     ghost last: bool, ghost c: Codes, ghost hist0: seq<Byte>, ghost future: seq<bool>,
                   ghost w: nat)
    returns (put: nat, went: Went)
    requires r.Valid() && TableFor(LENS, c.llens, c.m, lcode, lbits) && TableFor(DISTS, c.dlens, c.m, dcode, dbits)
      && c.m <= 15
    requires r.next + 6 <= |r.input| && put0 + 258 <= out.Length
    requires r.bits < 8 || (r.bits < c.m && NextSymbol(c.llens, c.m, r.Held()).NeedMore?)
    requires wnd.Holds(hist0) && out != wnd.window && (wnd.wsize == 0 ==> hist0 == [])
    requires wnd.window.Length == w || hist0 == []
    modifies r, out
    ensures r.Valid() && r.input == old(r.input) && r.bits < 8 && old(r.next) <= r.next
      && |r.Ahead()| < |old(r.Ahead())|
    ensures put0 <= put <= out.Length && old(out[..put0]) == out[..put0]
    ensures var before := old(Body(last, c, hist0 + out[..put0], r.Ahead() + future, w));
      Kept(before, Next(went, hist0 + out[..put], last, c, r.Ahead() + future, w), hist0 + out[..put], false)
  {
    hide TableFor, NextSymbol, Value, Pow2, ToBits, BytesToBits, Body, Inflate, Ring, BitReader.Ahead, BitReader.Held,
         BitReader.Valid, Kept, Next, Underway, Window.Holds;
    ghost var s0, before := r.Ahead(), Body(last, c, hist0 + out[..put0], r.Ahead() + future, w);
    put := put0;
    SetOut(r, c);
    KeptUnlessFar(before, before, [], hist0 + out[..put], false);
    while true
      invariant r.Valid() && r.input == old(r.input) && r.next + 6 <= |r.input|
      invariant Underway(r, s0, r.input, old(r.next), old(r.bits), c)
      invariant put0 <= put && put + 258 <= out.Length && old(out[..put0]) == out[..put0]
      invariant Kept(before, Body(last, c, hist0 + out[..put], r.Ahead() + future, w),
        hist0 + out[..put], false)
      decreases |r.Ahead()|
    {
      ghost var now, h := Body(last, c, hist0 + out[..put], r.Ahead() + future, w), hist0 + out[..put];
      put, went := FastTurn(r, lcode, lbits, dcode, dbits, wnd, out, put, last, c, hist0, future, w, s0, old(r.next),
        old(r.bits));
      KeptOn(before, now, Next(went, hist0 + out[..put], last, c, r.Ahead() + future, w), h,
        hist0 + out[..put], false);
      if !(went == Go && r.next < |r.input| - 5 && put < out.Length - 257) { break; }
      GoesOn(hist0 + out[..put], last, c, r.Ahead() + future, w);
    }
    PutUnused(r, s0, old(r.next), old(r.bits), c, old(r.Held()));
  }

  /** The whole bytes not used go back. */
  method PutUnused(r: BitReader, ghost s0: seq<bool>, ghost next0: nat, ghost bits0: nat, ghost c: Codes,
                   ghost held0: seq<bool>)
    requires Underway(r, s0, r.input, next0, bits0, c) && r.bits < 8 * (r.next - next0) + 8
    requires next0 <= |r.input| && s0 == held0 + BytesToBits(r.input[next0..])
    modifies r
    ensures r.Valid() && r.input == old(r.input) && r.bits < 8 && next0 <= r.next && r.Ahead() == old(r.Ahead())
  {
    hide NextSymbol, Value, Pow2, ToBits, BytesToBits;
    var n := r.bits / 8;
    HeldEnds(r, held0, next0, n, s0);
    r.PutBack(n);
  }

  /** What is to come after a step that went that way. */
  ghost function Next(went: Went, hist: seq<Byte>, last: bool, c: Codes, bs: seq<bool>, w: nat): Outcome
  {
    match went
    case Go => Body(last, c, hist, bs, w)
    case Ended => Inflate(last, hist, bs, c.m, w)
    case Error => Failed(hist)
  }

  lemma GoesOn(hist: seq<Byte>, last: bool, c: Codes, bs: seq<bool>, w: nat)
    ensures Next(Go, hist, last, c, bs, w) == Body(last, c, hist, bs, w)
  {
  }

  lemma Sizes(r: BitReader)
    requires r.Valid()
    ensures r.Ahead() == r.Held() + BytesToBits(r.input[r.next..]) && |r.Ahead()| == r.bits + 8 * (|r.input| - r.next)
  {
  }

  lemma HeldEnds(r: BitReader, held0: seq<bool>, next0: nat, n: nat, s0: seq<bool>)
    requires r.Valid() && next0 + n <= r.next && 8 * n <= r.bits && s0 == held0 + BytesToBits(r.input[next0..])
    requires |r.Ahead()| <= |s0| && r.Ahead() == s0[|s0| - |r.Ahead()|..]
    ensures r.Held()[r.bits - 8 * n..] == BytesToBits(r.input[r.next - n..r.next])
  {
    LastBytesHeld(held0, r.input, next0, r.Held(), r.next, n);
  }

  function Max(a: nat, b: nat): nat { if a >= b then a else b }

  lemma Suffix(ty: CodeType, lens: seq<nat>, m: nat, here: Entry, bs: seq<bool>, bs2: seq<bool>)
    requires Took(ty, lens, m, here, bs, bs2)
    ensures |bs2| <= |bs| && bs2 == bs[|bs| - |bs2|..]
  {
  }
}
