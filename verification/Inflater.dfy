/** inflate.c: the resumable decoder. Whatever pieces its input and output come in, the bytes yielded so far
    and what the state will still yield make up what the stream inflates to. */
module Inflater {
  import opened Bits
  import opened BitWriter
  import opened BitReader
  import opened Canonical
  import opened CodeLengths
  import opened DecodeTable
  import opened InflateTable
  import opened Header
  import opened SubTables
  import opened Tokens
  import opened Blocks
  import opened BlockSize
  import opened Stream
  import opened Inflated
  import opened SymbolReader
  import opened TokenSteps
  import opened Outcomes
  import opened InflateSteps
  import opened Window
  import InflateFast

  datatype Mode = TYPEDO | STORED | COPY | TABLE | LENLENS | CODELENS
    | LEN | LENEXT | DIST | DISTEXT | MATCH | LIT | DONE | BAD

  /** The tables of the two codes of a block. */
  ghost predicate Tables(c: Codes, lencode: seq<Entry>, lenbits: nat, distcode: seq<Entry>, distbits: nat)
  {
    TableFor(LENS, c.llens, c.m, lencode, lenbits) && TableFor(DISTS, c.dlens, c.m, distcode, distbits)
  }

  class Inflater {
    const r: BitReader
    const lens: array<nat>
    const codes: array<Entry>
    const m: nat
    ghost const reach: nat        // how far back a match may go: the size of the window
    var mode: Mode
    var last: bool
    var length: nat
    var offset: nat
    var extra: nat
    var nlen: nat
    var ndist: nat
    var ncode: nat
    var have: nat
    var lencode: seq<Entry>
    var lenbits: nat
    var distcode: seq<Entry>
    var distbits: nat
    const fixedLen: seq<Entry>
    const fixedDist: seq<Entry>
    const fixedLenBits: nat
    const fixedDistBits: nat
    ghost var c: Codes
    ghost var blens: seq<nat>

    constructor (ghost reach: nat)
      ensures Valid() && mode == TYPEDO && !last && r.Ahead() == [] && fresh(r) && fresh(lens) && fresh(codes)
        && this.reach == reach
    {
      hide TableFor, StaticLens, Fives, Pow2;
      r := new BitReader();
      lens := new nat[320];
      codes := new Entry[ENOUGH_LENS + ENOUGH_DISTS];
      m := MAXBITS;
      this.reach := reach;
      mode, last, length, offset, extra, nlen, ndist, ncode, have := TYPEDO, false, 0, 0, 0, 0, 0, 0, 0;
      lencode, lenbits, distcode, distbits := [], 0, [], 0;
      c, blens := Codes([], [], 0), [];
      var lt, lb, dt, db := FixedTables(MAXBITS);
      fixedLen, fixedLenBits, fixedDist, fixedDistBits := lt, lb, dt, db;
    }

    /** The tables of the static codes. */
    ghost predicate FixedReady()
    {
      TableFor(LENS, StaticLens(288), m, fixedLen, fixedLenBits)
        && TableFor(DISTS, Fives(32), m, fixedDist, fixedDistBits)
    }

    /** What the rest of the stream will add to `hist`, if `future` comes after the input at hand. */
    ghost function Will(hist: seq<Byte>, future: seq<bool>): Outcome
      reads this, r, lens
    {
      if !r.Valid() then Failed(hist) else
      var bs := r.Ahead() + future;
      match mode
      case TYPEDO => Inflate(last, hist, bs, m, reach)
      case STORED => StoredBlock(last, hist, bs, m, reach)
      case COPY => Bytes(last, length, hist, bs, m, reach)
      case TABLE => WithTrees(last, hist, ReadHeader(bs, m), m, reach)
      case LENLENS =>
        if have <= ncode <= 19 == |blens|
          then WithTrees(last, hist, FromOrder(ReadOrder(bs, blens, have, ncode), m, nlen, ndist), m, reach)
        else Failed(hist)
      case CODELENS =>
        if have <= lens.Length then WithTrees(last, hist,
          FromLens(ReadLens(blens, m, bs, lens[..have], nlen + ndist), m, nlen, ndist), m, reach)
        else Failed(hist)
      case LEN => Body(last, c, hist, bs, reach)
      case LENEXT => AfterStep(last, c, hist, ReadMatch(c, bs, length, extra), reach)
      case DIST => AfterStep(last, c, hist, ReadDist(c, bs, length), reach)
      case DISTEXT => AfterStep(last, c, hist, ReadDistExtra(bs, length, KBase(offset, extra)), reach)
      case MATCH =>
        if !(1 <= offset <= |hist|) then Failed(hist)
        else if offset > reach then TooFar(hist)
        else Body(last, c, Copied(hist, offset, length), bs, reach)
      case LIT => if length < 256 then Body(last, c, hist + [length], bs, reach) else Failed(hist)
      case DONE => Finished(hist, bs)
      case BAD => Failed(hist)
    }

    /** The same, after `hist0` and the first `put` bytes of the output. */
    ghost function WillAfter(hist0: seq<Byte>, out: array<Byte>, put: nat, future: seq<bool>): Outcome
      requires put <= out.Length
      reads this, r, lens, out
    {
      Will(hist0 + out[..put], future)
    }

    /** In the states that decode tokens, the two tables stand for the two codes of the block. */
    ghost predicate TablesReady()
      reads this
    {
      c.m == m && Tables(c, lencode, lenbits, distcode, distbits)
    }

    /** The accumulator holds no whole byte that could have been left in the input. */
    ghost predicate Snug()
      requires r.Valid()
      reads this, r
    {
      match mode
      case STORED => r.bits < 8 || (r.bits % 8 == 0 && r.bits < 32)
      case COPY => r.bits == 0
      case TABLE => r.bits < 14
      case CODELENS => r.bits < 8 || (have < nlen + ndist && r.bits < 22 && !OneItem(blens, m, r.Held()))
      case LEN => r.bits < 8 || (r.bits < m && NextSymbol(c.llens, m, r.Held()).NeedMore?)
      case DIST => r.bits < 8 || (r.bits < m && NextSymbol(c.dlens, m, r.Held()).NeedMore?)
      case DISTEXT => r.bits < 8 || r.bits < extra
      case BAD => r.bits <= 32
      case _ => r.bits < 8
    }

    /** The first `have` of the lengths of the bit length code are read. */
    ghost predicate LenLensOk()
      reads this, lens
    {
      && have <= ncode <= 19 == |blens| <= lens.Length && 257 <= nlen <= 286 && 1 <= ndist <= 30
      && forall s :: 0 <= s < 19 ==> blens[s] < 8 && blens[s] == (if RankOf(s) < have then lens[s] else 0)
    }

    /** The bit length code is known, and the first `have` of the lengths sent with it. */
    ghost predicate CodeLensOk()
      reads this, lens
    {
      && |blens| == 19 && TableFor(CODES, blens, m, lencode, lenbits) && LensBounded(blens, lenbits)
        && LensBounded(blens, 7) && 257 <= nlen <= 286 && 1 <= ndist <= 30
      && have <= nlen + ndist <= lens.Length && forall i :: 0 <= i < have ==> lens[i] < 16
    }

    ghost predicate Basic()
      reads this, r
    {
      r.Valid() && m == MAXBITS && lens.Length == 320 && codes.Length == ENOUGH_LENS + ENOUGH_DISTS && FixedReady()
    }

    /** What the state at hand needs. */
    ghost predicate Equipped()
      reads this, lens
    {
      match mode
      case LENLENS => LenLensOk()
      case CODELENS => CodeLensOk()
      case LEN => TablesReady()
      case LENEXT => TablesReady() && length >= 1 && extra <= 5
      case DIST => TablesReady() && length >= 1
      case DISTEXT => TablesReady() && length >= 1 && offset >= 1 && extra <= 13 && offset + Pow2(extra) <= WSIZE + 1
      case MATCH => TablesReady() && 1 <= offset <= WSIZE && length >= 1
      case LIT => TablesReady() && length < 256
      case _ => true
    }

    ghost predicate Valid()
      reads this, r, lens
    {
      Basic() && Snug() && Equipped()
    }

    lemma Known()
      requires Valid()
      ensures Basic() && Equipped()
      ensures mode == TABLE ==> r.bits < 14
      ensures mode == LEN ==> r.bits < 8 || (r.bits < m && NextSymbol(c.llens, m, r.Held()).NeedMore?)
      ensures mode == DIST ==> r.bits < 8 || (r.bits < m && NextSymbol(c.dlens, m, r.Held()).NeedMore?)
      ensures mode == DISTEXT ==> r.bits < 8 || r.bits < extra
      ensures mode == LENEXT || mode == LENLENS || mode == MATCH || mode == LIT ==> r.bits < 8
    {
      hide FixedReady, Equipped, OneItem, NextSymbol;
    }

    lemma Rested()
      requires Basic() && Equipped() && r.bits < 8 && mode != COPY
      ensures Valid()
    {
      hide FixedReady, Equipped, OneItem, NextSymbol;
    }

    /** All input has been read, and what is at hand of it is not enough to go on. */
    ghost predicate Starving()
      reads this, r
    {
      && r.Valid() && r.next == |r.input|
      && match mode
        case TYPEDO => !last && r.bits < 3
        case STORED => r.bits < 32
        case COPY => length > 0 && r.bits == 0
        case TABLE => r.bits < 14
        case LENLENS => have < ncode && r.bits < 3
        case CODELENS => have < nlen + ndist && !OneItem(blens, m, r.Held())
        case LEN => NextSymbol(c.llens, m, r.Held()).NeedMore?
        case LENEXT => r.bits < extra
        case DIST => NextSymbol(c.dlens, m, r.Held()).NeedMore?
        case DISTEXT => r.bits < extra
        case _ => false
    }

    lemma Waits()
      requires Basic() && Equipped() && r.next == |r.input|
      requires match mode
        case TABLE => r.bits < 14
        case LEN => r.bits < m && NextSymbol(c.llens, m, r.Held()).NeedMore?
        case LENEXT => r.bits < extra
        case DIST => r.bits < m && NextSymbol(c.dlens, m, r.Held()).NeedMore?
        case DISTEXT => r.bits < extra
        case _ => false
      ensures Valid() && Starving()
    {
      hide FixedReady, LenLensOk, CodeLensOk, OneItem, NextSymbol, TablesReady;
    }

    /** Nothing that has been yielded is taken back. */
    lemma WillGrow(hist: seq<Byte>, future: seq<bool>)
      requires Valid()
      ensures hist <= Will(hist, future).hist
    {
      hide TableFor, NextSymbol, Value, Pow2, Rejected, Copied, FixedReady, Inflate, StoredBlock, Bytes, WithTrees,
           Body, AfterStep, ReadHeader, ReadMatch, ReadDist, Snug, LenLensOk, CodeLensOk, TablesReady;
      var bs := r.Ahead() + future;
      match mode
      case TYPEDO => InflateGrows(last, hist, bs, m, reach);
      case STORED => StoredGrows(last, hist, bs, m, reach);
      case COPY => BytesGrow(last, length, hist, bs, m, reach);
      case TABLE => TreesGrow(last, hist, ReadHeader(bs, m), m, reach);
      case LENLENS =>
        if have <= ncode <= 19 == |blens| {
          TreesGrow(last, hist, FromOrder(ReadOrder(bs, blens, have, ncode), m, nlen, ndist), m, reach);
        }
      case CODELENS =>
        if have <= lens.Length {
          TreesGrow(last, hist, FromLens(ReadLens(blens, m, bs, lens[..have], nlen + ndist), m, nlen, ndist), m, reach);
        }
      case LEN => BodyGrows(last, c, hist, bs, reach);
      case LENEXT => AfterGrows(last, c, hist, ReadMatch(c, bs, length, extra), reach);
      case DIST => AfterGrows(last, c, hist, ReadDist(c, bs, length), reach);
      case DISTEXT => AfterGrows(last, c, hist, ReadDistExtra(bs, length, KBase(offset, extra)), reach);
      case MATCH => if 1 <= offset <= |hist| { BodyGrows(last, c, Copied(hist, offset, length), bs, reach); }
      case LIT => if length < 256 { BodyGrows(last, c, hist + [length], bs, reach); }
      case DONE =>
      case BAD =>
    }

    /** Then the stream really ends there. */
    lemma Starves(hist: seq<Byte>)
      requires Valid() && Starving()
      ensures Will(hist, []) == Starved(hist)
    {
      hide TableFor, NextSymbol, Value, Pow2, Rejected, Copied, FixedReady;
      var bs := r.Ahead() + [];
      assert bs == r.Held();
      if mode == STORED {
        assert WholeBlock(last, hist, Inflated.Aligned(bs), m, reach) == Starved(hist);
      } else if mode == LEN {
        assert AfterStep(last, c, hist, ReadStep(c, bs), reach) == Starved(hist);
      }
    }

    // What the state will yield, state by state.

    lemma AtStored(hist: seq<Byte>, future: seq<bool>)
      requires r.Valid() && mode == STORED
      ensures Will(hist, future) == StoredBlock(last, hist, r.Ahead() + future, m, reach)
    {
    }

    lemma AtCopy(hist: seq<Byte>, future: seq<bool>)
      requires r.Valid() && mode == COPY
      ensures Will(hist, future) == Bytes(last, length, hist, r.Ahead() + future, m, reach)
    {
    }

    lemma AtTable(hist: seq<Byte>, future: seq<bool>)
      requires r.Valid() && mode == TABLE
      ensures Will(hist, future) == WithTrees(last, hist, ReadHeader(r.Ahead() + future, m), m, reach)
    {
    }

    lemma AtLenLens(hist: seq<Byte>, future: seq<bool>)
      requires r.Valid() && mode == LENLENS && have <= ncode <= 19 == |blens|
      ensures Will(hist, future) ==
        WithTrees(last, hist, FromOrder(ReadOrder(r.Ahead() + future, blens, have, ncode), m, nlen, ndist), m, reach)
    {
    }

    lemma AtCodeLens(hist: seq<Byte>, future: seq<bool>)
      requires r.Valid() && mode == CODELENS && have <= lens.Length
      ensures Will(hist, future) ==
        WithTrees(last, hist, FromLens(ReadLens(blens, m, r.Ahead() + future, lens[..have], nlen + ndist), m, nlen,
        ndist), m, reach)
    {
      hide WithTrees, FromLens, ReadLens, Inflate, Body, AfterStep, StoredBlock, Bytes;
    }

    lemma AtDone(hist: seq<Byte>, future: seq<bool>)
      requires r.Valid() && mode == DONE
      ensures Will(hist, future) == Finished(hist, r.Ahead() + future)
    {
    }

    lemma AtBad(hist: seq<Byte>, future: seq<bool>)
      requires mode == BAD
      ensures Will(hist, future) == Failed(hist)
    {
    }

    lemma AtLen(hist: seq<Byte>, future: seq<bool>)
      requires r.Valid() && mode == LEN
      ensures Will(hist, future) == Body(last, c, hist, r.Ahead() + future, reach)
    {
    }

    lemma AtType(hist: seq<Byte>, future: seq<bool>)
      requires r.Valid() && mode == TYPEDO
      ensures Will(hist, future) == Inflate(last, hist, r.Ahead() + future, m, reach)
    {
    }

    lemma AtLenExt(hist: seq<Byte>, future: seq<bool>)
      requires r.Valid() && mode == LENEXT
      ensures Will(hist, future) == AfterStep(last, c, hist, ReadMatch(c, r.Ahead() + future, length, extra), reach)
    {
    }

    lemma AtDist(hist: seq<Byte>, future: seq<bool>)
      requires r.Valid() && mode == DIST
      ensures Will(hist, future) == AfterStep(last, c, hist, ReadDist(c, r.Ahead() + future, length), reach)
    {
    }

    lemma AtDistExt(hist: seq<Byte>, future: seq<bool>)
      requires r.Valid() && mode == DISTEXT
      ensures Will(hist, future) ==
        AfterStep(last, c, hist, ReadDistExtra(r.Ahead() + future, length, KBase(offset, extra)), reach)
    {
    }

    lemma AtMatch(hist: seq<Byte>, future: seq<bool>)
      requires r.Valid() && mode == MATCH
      ensures Will(hist, future) ==
        if !(1 <= offset <= |hist|) then Failed(hist)
        else if offset > reach then TooFar(hist)
        else Body(last, c, Copied(hist, offset, length), r.Ahead() + future, reach)
    {
    }

    lemma AtLit(hist: seq<Byte>, future: seq<bool>)
      requires r.Valid() && mode == LIT && length < 256
      ensures Will(hist, future) == Body(last, c, hist + [length], r.Ahead() + future, reach)
    {
    }

    /** Give up. */
    method Fail(ghost hist: seq<Byte>, ghost future: seq<bool>)
      requires Basic() && r.bits <= 32
      modifies this`mode
      ensures Valid() && mode == BAD && Will(hist, future) == Failed(hist)
    {
      mode := BAD;
    }

    /** LEN: decode a literal, a length base or the end of the block. */
    method DoLen(ghost hist: seq<Byte>, ghost future: seq<bool>) returns (leave: bool)
      requires Valid() && mode == LEN
      modifies this, r
      ensures Valid() && Will(hist, future) == old(Will(hist, future)) && r.input == old(r.input)
      ensures leave ==> Starving() && mode == LEN
      ensures if leave then r.Ahead() == old(r.Ahead()) else |r.Ahead()| < |old(r.Ahead())|
    {
      hide TableFor, NextSymbol, SymbolAction, Took, Inflate, Body, StoredBlock, Bytes, WithTrees, ReadHeader,
           ReadOrder, ReadLens, Copied, ReadMatch, ReadDist, ReadStep, OneItem, Value, Will, AfterStep, FixedReady,
           StaticLens, Fives, LenLensOk, CodeLensOk, Valid, Snug, Starving, BitReader.Ahead, BitReader.Held,
           BitReader.Valid;
      Known();
      ghost var bs := r.Ahead();
      AtLen(hist, future);
      var ok, here := NextEntry(r, lencode, lenbits, LENS, c.llens, m);
      if !ok {
        AtLen(hist, future);
        Waits();
        return true;
      }
      LenTaken(c, lencode, lenbits, here, bs, r.Ahead(), future);
      BodyStep(last, c, hist, bs + future, reach);
      length := here.val;
      if here.op == 0 {
        mode := LIT;
        AfterLit(last, c, hist, length, r.Ahead() + future, reach);
        AtLit(hist, future);
      } else if (here.op / 32) % 2 == 1 {
        mode := TYPEDO;
        AfterEnd(last, c, hist, r.Ahead() + future, reach);
        AtType(hist, future);
      } else if (here.op / 64) % 2 == 1 {
        AfterBad(last, c, hist, reach);
        Fail(hist, future);
      } else {
        extra := here.op % 16;
        mode := LENEXT;
        AtLenExt(hist, future);
      }
      Rested();
      return false;
    }

    /** LENEXT: the extra bits of a length. */
    method DoLenExt(ghost hist: seq<Byte>, ghost future: seq<bool>) returns (leave: bool)
      requires Valid() && mode == LENEXT
      modifies this, r
      ensures Valid() && Will(hist, future) == old(Will(hist, future)) && r.input == old(r.input)
      ensures leave ==> Starving() && mode == LENEXT
      ensures !leave ==> mode == DIST
      ensures |r.Ahead()| <= |old(r.Ahead())|
    {
      hide TableFor, NextSymbol, Inflate, Body, ReadDist, AfterStep, Value, Will, FixedReady, StaticLens, Fives,
           LenLensOk, CodeLensOk, Tables, OneItem, Valid, Snug, Starving;
      Known();
      AtLenExt(hist, future);
      var ok;
      ok, length := AddExtra(r, length, extra, future);
      if !ok {
        AtLenExt(hist, future);
        Waits();
        return true;
      }
      mode := DIST;
      AtDist(hist, future);
      Rested();
      return false;
    }

    /** DIST: decode a distance base. */
    method DoDist(ghost hist: seq<Byte>, ghost future: seq<bool>) returns (leave: bool)
      requires Valid() && mode == DIST
      modifies this, r
      ensures Valid() && Will(hist, future) == old(Will(hist, future)) && r.input == old(r.input)
      ensures leave ==> Starving() && mode == DIST
      ensures !leave ==> mode == DISTEXT || mode == BAD
      ensures |r.Ahead()| <= |old(r.Ahead())|
    {
      hide TableFor, NextSymbol, SymbolAction, Took, Inflate, Body, AfterStep, ReadDist, ReadDistExtra, Will,
           FixedReady, StaticLens, Fives, LenLensOk, CodeLensOk, OneItem, Valid, Snug, Starving;
      Known();
      ghost var bs := r.Ahead();
      AtDist(hist, future);
      var ok, here := NextEntry(r, distcode, distbits, DISTS, c.dlens, m);
      if !ok {
        AtDist(hist, future);
        Waits();
        return true;
      }
      DistTaken(c, distcode, distbits, here, bs, r.Ahead(), future, length);
      if (here.op / 64) % 2 == 1 {
        AfterBad(last, c, hist, reach);
        Fail(hist, future);
        return false;
      }
      offset := here.val;
      extra := here.op % 16;
      mode := DISTEXT;
      AtDistExt(hist, future);
      Rested();
      return false;
    }

    /** DISTEXT: the extra bits of a distance. */
    method DoDistExt(ghost hist: seq<Byte>, ghost future: seq<bool>) returns (leave: bool)
      requires Valid() && mode == DISTEXT
      modifies this, r
      ensures Valid() && Will(hist, future) == old(Will(hist, future)) && r.input == old(r.input)
      ensures leave ==> Starving() && mode == DISTEXT
      ensures !leave ==> mode == MATCH
      ensures |r.Ahead()| <= |old(r.Ahead())|
    {
      hide TableFor, NextSymbol, Inflate, Body, StoredBlock, Bytes, WithTrees, ReadHeader, ReadOrder, ReadLens, Copied,
           Value, Pow2, OneItem, ReadMatch, ReadDist, Will, FixedReady, StaticLens, Fives, LenLensOk, CodeLensOk,
           Tables, Valid, Snug, Starving;
      Known();
      AtDistExt(hist, future);
      var ok;
      ok, offset := AddExtra(r, offset, extra, future);
      if !ok {
        AtDistExt(hist, future);
        Waits();
        return true;
      }
      mode := MATCH;
      AtMatch(hist, future);
      Rested();
      return false;
    }

    /** MATCH: copy as much of the match as the window piece and the output allow. */
    method DoMatch(wnd: Window, out: array<Byte>, put0: nat, ghost hist0: seq<Byte>, ghost future: seq<bool>)
      returns (leave: bool, put: nat)
      requires Valid() && mode == MATCH && wnd.Holds(hist0) && out != wnd.window && put0 <= out.Length
      requires (wnd.wsize == 0 ==> hist0 == []) && Reached(wnd, hist0)
      modifies this, out
      ensures Valid() && put0 <= put <= out.Length
      ensures Kept(old(WillAfter(hist0, out, put0, future)), Will(hist0 + out[..put], future), hist0 + out[..put],
        out.Length <= 1)
      ensures leave ==> put == out.Length && mode == MATCH
      ensures !leave ==> mode == LEN || mode == MATCH || mode == BAD
      ensures put0 <= put && (!leave ==> mode == BAD || put0 < put) && old(out[..put0]) == out[..put0]
      ensures put0 < out.Length ==> (mode == BAD <==> old(offset) > put0 + wnd.whave)
    {
      hide TableFor, NextSymbol, Inflate, Body, StoredBlock, Bytes, WithTrees, ReadHeader, ReadOrder, ReadLens, Copied,
           Value, Pow2, OneItem, Ring, Will, FixedReady, StaticLens, Fives, LenLensOk, CodeLensOk, Tables, Valid, Snug,
           Kept, Window.Holds, BitReader.Valid, BitReader.Ahead;
      put := put0;
      if put == out.Length {
        KeptUnlessFar(Will(hist0 + out[..put], future), Will(hist0 + out[..put], future), [], hist0 + out[..put],
          out.Length <= 1);
        return true, put;
      }
      Known();
      ghost var h := hist0 + out[..put0];
      ghost var was := Will(h, future);
      wnd.HaveAll(hist0);
      AtMatch(h, future);
      var ok;
      ok, put, length := wnd.CopyMatch(out, put0, offset, length, hist0);
      ghost var h' := hist0 + out[..put];
      assert h <= h';
      if !ok {
        Fail(h', future);
        KeptUnlessFar(was, Will(h', future), h, h', out.Length <= 1);
        return false, put;
      }
      CopiedInPieces(h, offset, put - put0, length);
      MatchOn(h', future);
      KeptUnlessFar(was, Will(h', future), h, h', out.Length <= 1);
      return false, put;
    }

    /** On to the next symbol if all of the match is copied. */
    method MatchOn(ghost hist: seq<Byte>, ghost future: seq<bool>)
      requires Basic() && mode == MATCH && TablesReady() && r.bits < 8 && 1 <= offset <= WSIZE && offset <= |hist|
      modifies `mode
      ensures Valid() && mode == if length == 0 then LEN else MATCH
      ensures offset <= reach ==>
        Will(hist, future) == Body(last, c, Copied(hist, offset, length), r.Ahead() + future, reach)
    {
      hide TableFor, Inflate, Body, Copied, Will, FixedReady, LenLensOk, CodeLensOk, Tables, Valid, Snug;
      if length == 0 {
        NoneCopied(hist, offset);
        mode := LEN;
        AtLen(hist, future);
      } else {
        AtMatch(hist, future);
      }
      Rested();
    }

    /** LIT: write a literal. */
    method DoLit(out: array<Byte>, put0: nat, ghost hist0: seq<Byte>, ghost future: seq<bool>)
      returns (leave: bool, put: nat)
      requires Valid() && mode == LIT && put0 <= out.Length
      modifies this, out
      ensures Valid() && put0 <= put <= out.Length
        && Will(hist0 + out[..put], future) == old(WillAfter(hist0, out, put0, future))
      ensures leave ==> put == out.Length && mode == LIT
      ensures !leave ==> mode == LEN && put == put0 + 1
      ensures old(out[..put0]) == out[..put0]
    {
      hide TableFor, NextSymbol, Inflate, Body, StoredBlock, Bytes, WithTrees, ReadHeader, ReadOrder, ReadLens, Copied,
           Value, Pow2, OneItem, Will, FixedReady, StaticLens, Fives, LenLensOk, CodeLensOk, Tables;
      put := put0;
      if put == out.Length { return true, put; }
      AtLit(hist0 + out[..put], future);
      out[put] := length;
      put := put + 1;
      assert hist0 + out[..put] == hist0 + old(out[..put0]) + [length];
      mode := LEN;
      AtLen(hist0 + out[..put], future);
      return false, put;
    }

    /** TYPEDO: the end of the stream, or the type of the next block. */
    method DoType(ghost hist: seq<Byte>, ghost future: seq<bool>) returns (leave: bool)
      requires Valid() && mode == TYPEDO && |future| % 8 == 0
      modifies this, r
      ensures Valid() && Will(hist, future) == old(Will(hist, future)) && r.input == old(r.input)
      ensures leave ==> Starving() && mode == TYPEDO
      ensures !leave ==> mode != TYPEDO
      ensures if leave || mode == DONE then |r.Ahead()| <= |old(r.Ahead())| else |r.Ahead()| < |old(r.Ahead())|
    {
      hide TableFor, NextSymbol, Body, StoredBlock, Bytes, WithTrees, ReadHeader, ReadOrder, ReadLens, Copied, Value,
           Pow2, OneItem, BytesToBits, ToBits, FixedCodes, StaticLens, Fives, OfKind;
      ghost var bs := r.Ahead();
      if last {
        ByteEnd(r.Held(), BytesToBits(r.input[r.next..]), future);
        r.DropBits(r.bits % 8);
        mode := DONE;
        return false;
      }
      var ok := r.NeedBits(3);
      if !ok { return true; }
      TypeBits(bs, future);
      InflateKind(hist, bs + future, m, reach);
      var flag := r.Bits(1);
      last := flag == 1;
      r.DropBits(1);
      var kind := r.Bits(2);
      r.DropBits(2);
      assert r.Ahead() == bs[3..] && kind == Value(bs[..3]) / 2 && last == (Value(bs[..3]) % 2 == 1);
      StartBlock(kind, hist, future);
      return false;
    }

    /** The state for a block of the given kind. */
    method StartBlock(kind: nat, ghost hist: seq<Byte>, ghost future: seq<bool>)
      requires Valid() && mode == TYPEDO && kind < 4
      modifies this
      ensures last == old(last) && (kind == 1 ==> mode == LEN)
      ensures Valid() && mode != TYPEDO && Will(hist, future) == OfKind(last, kind, hist, r.Ahead() + future, m, reach)
    {
      hide TableFor, NextSymbol, Body, StoredBlock, Bytes, WithTrees, ReadHeader, ReadOrder, ReadLens, Copied, Value,
           Pow2, OneItem, BytesToBits, ToBits, FixedCodes, StaticLens, Fives, Inflate;
      if kind == 0 {
        mode := STORED;
      } else if kind == 1 {
        lencode, lenbits, distcode, distbits := fixedLen, fixedLenBits, fixedDist, fixedDistBits;
        c := FixedCodes(m);
        FixedParts(m);
        mode := LEN;
      } else if kind == 2 {
        mode := TABLE;
      } else {
        mode := BAD;
      }
    }

    /** STORED: the length of a stored block, twice. */
    method DoStored(ghost hist: seq<Byte>, ghost future: seq<bool>) returns (leave: bool)
      requires Valid() && mode == STORED && |future| % 8 == 0
      modifies this, r
      ensures Valid() && Will(hist, future) == old(Will(hist, future)) && r.input == old(r.input)
      ensures leave ==> Starving() && mode == STORED
      ensures !leave ==> mode == COPY || mode == BAD
      ensures |r.Ahead()| <= |old(r.Ahead())|
    {
      hide TableFor, NextSymbol, Body, Bytes, WithTrees, ReadHeader, ReadOrder, ReadLens, Copied, Value, Pow2, OneItem,
           BytesToBits, ToBits, Inflate, StoredBlock, Inflated.Aligned, Will, FixedReady, StaticLens, Fives, LenLensOk,
           CodeLensOk, Tables;
      AtStored(hist, future);
      var ok := AlignWords(r, last, hist, future, m, reach);
      if !ok { AtStored(hist, future); return true; }
      StoredTaken(last, hist, r.Ahead(), future, m, reach);
      var lo := r.Bits(16);
      var both := r.Bits(32);
      if lo + both / 0x1_0000 != 0xffff {
        Fail(hist, future);
        return false;
      }
      length := lo;
      r.DropBits(32);
      mode := COPY;
      AtCopy(hist, future);
      return false;
    }

    /** COPY: as many bytes as input and output allow. */
    method DoCopy(out: array<Byte>, put0: nat, ghost hist0: seq<Byte>, ghost future: seq<bool>)
      returns (leave: bool, put: nat)
      requires Valid() && mode == COPY && put0 <= out.Length
      modifies this, r, out
      ensures Valid() && put0 <= put <= out.Length
        && Will(hist0 + out[..put], future) == old(WillAfter(hist0, out, put0, future))
      ensures r.input == old(r.input) && old(out[..put0]) == out[..put0]
      ensures leave ==> mode == COPY && (Starving() || put == out.Length)
      ensures !leave ==> mode == TYPEDO || (mode == COPY && put > put0)
      ensures |r.Ahead()| <= |old(r.Ahead())| && (mode == TYPEDO ==> put == put0)
    {
      hide TableFor, NextSymbol, Body, Bytes, WithTrees, ReadHeader, ReadOrder, ReadLens, Copied, Value, Pow2,
           OneItem, BytesToBits, ToBits, Inflate, StoredBlock, Will, FixedReady, StaticLens, Fives, LenLensOk,
           CodeLensOk, Tables, BitReader.Ahead, BitReader.Held;
      AtCopy(hist0 + out[..put0], future);
      put := put0;
      if length == 0 {
        NoBytes(last, hist0 + out[..put], r.Ahead() + future, m, reach);
        mode := TYPEDO;
        AtType(hist0 + out[..put], future);
        return false, put;
      }
      var copy := length;
      if copy > |r.input| - r.next { copy := |r.input| - r.next; }
      if copy > out.Length - put { copy := out.Length - put; }
      if copy == 0 { return true, put; }
      ghost var bytes := r.input[r.next..r.next + copy];
      CopyInput(out, put, r.input, r.next, copy);
      r.SkipBytes(copy);
      put := put + copy;
      assert hist0 + out[..put] == hist0 + old(out[..put0]) + bytes;
      BytesSkip(last, length, hist0 + old(out[..put0]), bytes, r.Ahead() + future, m, reach);
      assert old(r.Ahead()) + future == BytesToBits(bytes) + (r.Ahead() + future);
      length := length - copy;
      AtCopy(hist0 + out[..put], future);
      return false, put;
    }

    /** TABLE: the sizes of the three trees. */
    method DoTable(ghost hist: seq<Byte>, ghost future: seq<bool>) returns (leave: bool)
      requires Valid() && mode == TABLE
      modifies this, r
      ensures Valid() && Will(hist, future) == old(Will(hist, future)) && r.input == old(r.input)
      ensures leave ==> Starving() && mode == TABLE
      ensures !leave ==> mode == LENLENS || mode == BAD
      ensures |r.Ahead()| <= |old(r.Ahead())|
    {
      hide TableFor, NextSymbol, Body, Bytes, WithTrees, ReadOrder, ReadLens, Copied, Value, Pow2, OneItem,
           BytesToBits, ToBits, Inflate, StoredBlock, Rejected, ReadHeader, FromOrder, Will, FixedReady, StaticLens,
           Fives, CodeLensOk, Tables, Valid, Snug, Starving, LenLensOk, BitReader.Ahead, BitReader.Held,
           BitReader.Valid;
      Known();
      ghost var bs := r.Ahead();
      AtTable(hist, future);
      var ok := r.NeedBits(14);
      if !ok {
        AtTable(hist, future);
        Waits();
        return true;
      }
      InflateFast.Sizes(r);
      HeaderFields(bs, future, m);
      nlen, ndist, ncode := TakeSizes(r);
      if nlen > 286 || ndist > 30 {
        NoTrees(last, hist, m, reach);
        Fail(hist, future);
        return false;
      }
      have := 0;
      blens := seq(19, _ => 0);
      mode := LENLENS;
      AtLenLens(hist, future);
      OrderStarts();
      return false;
    }

    lemma OrderStarts()
      requires Basic() && r.bits < 8 && mode == LENLENS && have == 0 && blens == seq(19, _ => 0)
      requires ncode <= 19 && 257 <= nlen <= 286 && 1 <= ndist <= 30
      ensures Valid()
    {
      hide FixedReady, RankOf;
    }

    /** LENLENS, first part: the lengths of the bit length code. */
    method ReadBlLens(ghost hist: seq<Byte>, ghost future: seq<bool>) returns (leave: bool)
      requires Valid() && mode == LENLENS
      modifies this, r, lens
      ensures Valid() && Will(hist, future) == old(Will(hist, future)) && r.input == old(r.input) && mode == LENLENS
      ensures leave ==> Starving()
      ensures !leave ==> have == ncode
      ensures |r.Ahead()| <= |old(r.Ahead())|
    {
      hide TableFor, NextSymbol, Body, Bytes, WithTrees, ReadOrder, ReadLens, Copied, Value, Pow2, OneItem, BytesToBits,
           ToBits, Inflate, StoredBlock, Rejected, ReadHeader, FromOrder, RankOf, OrderOf, FixedReady, StaticLens,
           Fives;
      Ranks();
      while have < ncode
        invariant Valid() && Will(hist, future) == old(Will(hist, future)) && r.input == old(r.input) && mode == LENLENS
        invariant |r.Ahead()| <= |old(r.Ahead())|
        decreases ncode - have
      {
        ghost var bs := r.Ahead();
        var ok := r.NeedBits(3);
        if !ok { return true; }
        OrderTaken(bs, future, blens, have, ncode);
        var v := r.Take(3);
        Three(bs);
        lens[OrderOf(have)] := v;
        blens := blens[OrderOf(have) := v];
        have := have + 1;
      }
      return false;
    }

    /** The lengths not sent are zero. */
    method FillBlLens()
      requires LenLensOk() && have == ncode
      modifies lens
      ensures lens[..19] == blens && LenLensOk()
    {
      hide RankOf, OrderOf;
      Ranks();
      var k := have;
      while k < 19
        invariant have <= k <= 19 && forall s :: 0 <= s < 19 && RankOf(s) < k ==> lens[s] == blens[s]
      {
        lens[OrderOf(k)] := 0;
        k := k + 1;
      }
    }

    /** The table of the bit length code, unless it is invalid. */
    method BlTable() returns (ok: bool)
      requires LenLensOk() && lens[..19] == blens && codes.Length == ENOUGH_LENS + ENOUGH_DISTS && m == MAXBITS
      modifies `lencode, `lenbits, codes
      ensures ok <==> !Rejected(CODES, blens, m)
      ensures ok ==> TableFor(CODES, blens, m, lencode, lenbits) && LensBounded(blens, lenbits) && LensBounded(blens, 7)
    {
      hide TableFor, Pow2, OneItem, Rejected, RankOf, OrderOf;
      SmallPowers();
      var ret, root, used := Build(CODES, lens[..19], codes, 0, 7, m);
      ok := ret == 0;
      if ok { lencode, lenbits := codes[0..used], root; }
    }

    /** LENLENS: read the bit length code and make its table. */
    method DoLenLens(ghost hist: seq<Byte>, ghost future: seq<bool>) returns (leave: bool)
      requires Valid() && mode == LENLENS
      modifies this, r, lens, codes
      ensures Valid() && Will(hist, future) == old(Will(hist, future)) && r.input == old(r.input)
      ensures leave ==> Starving() && mode == LENLENS
      ensures !leave ==> mode == CODELENS || mode == BAD
      ensures |r.Ahead()| <= |old(r.Ahead())|
    {
      hide TableFor, NextSymbol, Body, Bytes, WithTrees, ReadOrder, ReadLens, Copied, Value, Pow2, OneItem,
           BytesToBits, ToBits, Inflate, StoredBlock, Rejected, ReadHeader, FromLens, RankOf, OrderOf, Will,
           FixedReady, StaticLens, Fives, Valid, Snug, Starving, BitReader.Ahead, BitReader.Held, BitReader.Valid;
      Known();
      leave := ReadBlLens(hist, future);
      if leave { return; }
      Known();
      AtLenLens(hist, future);
      FillBlLens();
      OrderComplete(r.Ahead() + future, blens, ncode);
      var ok := BlTable();
      if !ok {
        NoTrees(last, hist, m, reach);
        Fail(hist, future);
        return;
      }
      have := 0;
      assert lens[..have] == [];
      mode := CODELENS;
      AtCodeLens(hist, future);
      Rested();
    }

    /** What one symbol of the bit length code does to the lengths read so far; false if it repeats nothing
        or too much. */
    method ApplyItem(val: nat, v: nat) returns (ok: bool)
      requires val <= 18 && have < nlen + ndist <= lens.Length && forall i :: 0 <= i < have ==> lens[i] < 16
      modifies this`have, lens
      ensures ok <==> old(Apply(lens[..have], Item(val, v), nlen + ndist)).Lens?
      ensures ok ==> have <= nlen + ndist && lens[..have] == old(Apply(lens[..have], Item(val, v), nlen + ndist)).have
      ensures ok ==> forall i :: 0 <= i < have ==> lens[i] < 16
      ensures ok ==> have > old(have)
    {
      if val < 16 {
        lens[have] := val;
        have := have + 1;
        return true;
      }
      var len := 0;
      var copy := v + (if val == REPZ_11_138 then 11 else 3);
      if val == REP_3_6 {
        if have == 0 { return false; }
        len := lens[have - 1];
      }
      if have + copy > nlen + ndist { return false; }
      ghost var h := have;
      while copy != 0
        invariant h <= have && have + copy == h + v + (if val == REPZ_11_138 then 11 else 3)
          && have + copy <= nlen + ndist
        invariant copy >= 0 && lens[..have] == old(lens[..have]) + Repeat(len, have - h)
        decreases copy
      {
        lens[have] := len;
        have := have + 1;
        copy := copy - 1;
      }
      return true;
    }

    /** CODELENS: read one symbol and its extra bits. */
    method OneLength(ghost hist: seq<Byte>, ghost future: seq<bool>) returns (leave: bool)
      requires Valid() && mode == CODELENS && have < nlen + ndist
      modifies this, r, lens
      ensures Valid() && Will(hist, future) == old(Will(hist, future)) && r.input == old(r.input)
      ensures leave ==> Starving() && mode == CODELENS
      ensures !leave ==> mode == BAD || (mode == CODELENS && have > old(have))
      ensures nlen == old(nlen) && ndist == old(ndist)
      ensures |r.Ahead()| <= |old(r.Ahead())|
    {
      hide TableFor, NextSymbol, Body, Bytes, WithTrees, ReadOrder, ReadLens, Copied, Value, Pow2, BytesToBits,
           ToBits, Inflate, StoredBlock, Rejected, ReadHeader, FromOrder, FromLens, RankOf, OrderOf, Apply, OneItem,
           Peek, FixedReady, StaticLens, Fives, BitReader.Ahead, BitReader.Held, BitReader.Valid;
      ghost var bs, had := r.Ahead(), lens[..have];
      var ok, val, v := NextItem(r, lencode, lenbits, blens, m);
      if !ok { return true; }
      LensTaken(blens, m, lencode, lenbits, bs, r.Ahead(), future, had, nlen + ndist, val, v);
      ok := ApplyItem(val, v);
      if !ok {
        NoTrees(last, hist, m, reach);
        NoLens(m, nlen, ndist);
        mode := BAD;
      }
      return false;
    }

    /** The codes of the block and their tables. */
    method SetCodes(ghost llens: seq<nat>, ghost dlens: seq<nat>, lt: seq<Entry>, lbits: nat, dt: seq<Entry>,
                    dbits: nat,
                    ghost hist: seq<Byte>, ghost future: seq<bool>)
      requires Basic() && r.bits < 8 && TableFor(LENS, llens, m, lt, lbits) && TableFor(DISTS, dlens, m, dt, dbits)
      modifies this
      ensures Valid() && mode == LEN
        && Will(hist, future) == Body(old(last), Codes(llens, dlens, m), hist, r.Ahead() + future, reach)
    {
      hide TableFor, NextSymbol, Body, FixedReady;
      lencode, lenbits, distcode, distbits := lt, lbits, dt, dbits;
      c := Codes(llens, dlens, m);
      mode := LEN;
    }

    /** All lengths are known: make the two decoding tables. */
    method MakeTables(ghost hist: seq<Byte>, ghost future: seq<bool>)
      requires Valid() && mode == CODELENS && have == nlen + ndist && r.bits < 8
      modifies this, codes
      ensures Valid() && (mode == LEN || mode == BAD) && Will(hist, future) == old(Will(hist, future))
    {
      hide TableFor, NextSymbol, Body, ReadLens, Rejected, Refused, WithTrees, FromLens, Will, FixedReady,
           BitReader.Ahead, Valid, Snug;
      LensKnown();
      ghost var bs := r.Ahead() + future;
      AtCodeLens(hist, future);
      TreesFrom(last, hist, blens, m, bs, lens[..], nlen, ndist, reach);
      if lens[256] == 0 {
        Fail(hist, future);
        return;
      }
      var ret, lt, lbits, dt, dbits := BuildPair(lens[..nlen], lens[nlen..nlen + ndist], codes, m);
      if ret != 0 {
        Fail(hist, future);
        return;
      }
      SetCodes(lens[..nlen], lens[nlen..nlen + ndist], lt, lbits, dt, dbits, hist, future);
    }

    lemma LensKnown()
      requires Valid() && mode == CODELENS && have == nlen + ndist
      ensures Basic() && m == MAXBITS && 257 <= nlen <= 286 && 1 <= ndist <= 30 && have == nlen + ndist <= lens.Length
      ensures LensBounded(lens[..nlen], m) && LensBounded(lens[nlen..nlen + ndist], m)
        && codes.Length == ENOUGH_LENS + ENOUGH_DISTS
    {
      hide TableFor, FixedReady, Snug;
    }

    /** CODELENS: read the lengths of the two codes of the block and make their tables. */
    method DoCodeLens(ghost hist: seq<Byte>, ghost future: seq<bool>) returns (leave: bool)
      requires Valid() && mode == CODELENS
      modifies this, r, lens, codes
      ensures Valid() && r.input == old(r.input) && Will(hist, future) == old(Will(hist, future))
      ensures leave ==> Starving() && mode == CODELENS
      ensures !leave ==> mode == LEN || mode == BAD
      ensures |r.Ahead()| <= |old(r.Ahead())|
    {
      hide TableFor, NextSymbol, Body, Bytes, WithTrees, ReadOrder, ReadLens, Copied, Value, Pow2, BytesToBits, ToBits,
           Inflate, StoredBlock, Rejected, ReadHeader, FromOrder, RankOf, OrderOf, Apply, OneItem, FromLens;
      while mode == CODELENS && have < nlen + ndist
        invariant Valid() && (mode == CODELENS || mode == BAD) && r.input == old(r.input)
          && |r.Ahead()| <= |old(r.Ahead())|
        invariant Will(hist, future) == old(Will(hist, future))
        decreases mode == CODELENS, nlen + ndist - have
      {
        leave := OneLength(hist, future);
        if leave { return; }
      }
      if mode != BAD {
        MakeTables(hist, future);
      }
      return false;
    }

    /** LEN: many tokens at once if there is enough input and room, otherwise one symbol. */
    method DoTokens(wnd: Window, out: array<Byte>, put0: nat, ghost hist0: seq<Byte>, ghost future: seq<bool>)
      returns (leave: bool, put: nat)
      requires Valid() && mode == LEN && wnd.Holds(hist0) && out != wnd.window && put0 <= out.Length
      requires (wnd.wsize == 0 ==> hist0 == []) && Reached(wnd, hist0)
      modifies this, r, out
      ensures Valid() && put0 <= put <= out.Length
      ensures Kept(old(WillAfter(hist0, out, put0, future)), Will(hist0 + out[..put], future), hist0 + out[..put],
        out.Length <= 1)
      ensures r.input == old(r.input) && old(out[..put0]) == out[..put0]
      ensures leave ==> mode == LEN && Starving()
      ensures leave ==> put == put0
      ensures if leave then r.Ahead() == old(r.Ahead()) else |r.Ahead()| < |old(r.Ahead())|
    {
      hide TableFor, NextSymbol, Inflate, Body, StoredBlock, Bytes, WithTrees, ReadHeader, ReadOrder, ReadLens, Copied,
           Value, Pow2, OneItem, Ring, ReadMatch, ReadDist, ReadDistExtra, AfterStep, StaticLens, Fives;
      put := put0;
      if |r.input| - r.next >= 6 && out.Length - put >= 258 {
        var went;
        put, went := InflateFast.InflateFast(r, lencode, lenbits, distcode, distbits, wnd, out, put, last, c, hist0,
          future, reach);
        leave := false;
        if went.Ended? { mode := TYPEDO; }
        if went.Error? { mode := BAD; }
      } else {
        leave := DoLen(hist0 + out[..put], future);
      }
    }

    ghost predicate Final()
      reads this
    {
      mode == DONE || mode == BAD
    }

    /** A step that needs neither input nor output comes to an end. */
    function Rank(): nat
      reads this
    {
      match mode
      case DONE => 0 case BAD => 0 case TYPEDO => 1 case COPY => 2 case STORED => 3 case LEN => 3 case CODELENS => 4
      case LENLENS => 5 case TABLE => 6 case MATCH => 5 case DISTEXT => 6 case DIST => 7 case LENEXT => 8 case LIT => 9
    }

    /** One step in the header of a block. */
    method HeaderStep(ghost hist: seq<Byte>, ghost future: seq<bool>) returns (leave: bool)
      requires Valid() && (mode == TYPEDO || mode == STORED || mode == TABLE || mode == LENLENS || mode == CODELENS)
        && |future| % 8 == 0
      modifies this, r, lens, codes
      ensures Valid() && r.input == old(r.input) && Will(hist, future) == old(Will(hist, future))
      ensures leave ==> Starving() && !Final()
      ensures !leave ==> |r.Ahead()| < |old(r.Ahead())| || (|r.Ahead()| == |old(r.Ahead())| && Rank() < old(Rank()))
    {
      hide TableFor, NextSymbol, SymbolAction, Inflate, Body, StoredBlock, Bytes, WithTrees, ReadHeader, ReadOrder,
           ReadLens, Copied, Value, Pow2, OneItem, Ring, ReadMatch, ReadDist, ReadDistExtra, AfterStep, StaticLens,
           Fives, Will, Snug, TablesReady, FixedReady, LenLensOk, CodeLensOk, BitReader.Ahead;
      if mode == TYPEDO {
        leave := DoType(hist, future);
      } else if mode == STORED {
        leave := DoStored(hist, future);
      } else if mode == TABLE {
        leave := DoTable(hist, future);
      } else if mode == LENLENS {
        leave := DoLenLens(hist, future);
      } else {
        leave := DoCodeLens(hist, future);
      }
    }

    /** One step in the data of a block. */
    method DataStep(wnd: Window, out: array<Byte>, put0: nat, ghost hist0: seq<Byte>, ghost future: seq<bool>)
      returns (leave: bool, put: nat)
      requires Valid() && !Final() && mode != TYPEDO && mode != STORED && mode != TABLE && mode != LENLENS
        && mode != CODELENS
      requires wnd.Holds(hist0) && out != wnd.window && put0 <= out.Length && (wnd.wsize == 0 ==> hist0 == [])
        && Reached(wnd, hist0)
      modifies this, r, out
      ensures Valid() && r.input == old(r.input) && put0 <= put <= out.Length && old(out[..put0]) == out[..put0]
      ensures Kept(old(WillAfter(hist0, out, put0, future)), Will(hist0 + out[..put], future), hist0 + out[..put],
        out.Length <= 1)
      ensures leave ==> (Starving() || put == out.Length) && !Final()
      ensures !leave ==>
        |r.Ahead()| <= |old(r.Ahead())| && (|r.Ahead()| < |old(r.Ahead())| || put > put0 || Rank() < old(Rank()))
    {
      hide TableFor, NextSymbol, SymbolAction, Inflate, Body, StoredBlock, Bytes, WithTrees, ReadHeader, ReadOrder,
           ReadLens, Copied, Value, Pow2, OneItem, Ring, ReadMatch, ReadDist, ReadDistExtra, AfterStep, StaticLens,
           Fives, Will, Snug, TablesReady, FixedReady, LenLensOk, CodeLensOk, BitReader.Ahead;
      put := put0;
      ghost var hist := hist0 + out[..put0];
      if mode == COPY {
        leave, put := DoCopy(out, put0, hist0, future);
      } else if mode == LEN {
        leave, put := DoTokens(wnd, out, put0, hist0, future);
      } else if mode == LENEXT {
        leave := DoLenExt(hist, future);
      } else if mode == DIST {
        leave := DoDist(hist, future);
      } else if mode == DISTEXT {
        leave := DoDistExt(hist, future);
      } else if mode == MATCH {
        leave, put := DoMatch(wnd, out, put0, hist0, future);
      } else {
        leave, put := DoLit(out, put0, hist0, future);
      }
    }

    /** The window remembers `hist`, unless it is not in use because there is nothing to remember or no use for it. */
    ghost predicate Remembers(wnd: Window, hist: seq<Byte>)
      reads this, wnd, wnd.window
    {
      wnd.Holds(hist) && (wnd.wsize == 0 ==> hist == [] || Final())
    }

    /** The window is of the size that matches may reach back, or there is nothing to remember. */
    ghost predicate Reached(wnd: Window, hist0: seq<Byte>) { wnd.window.Length == reach || hist0 == [] }

    /** Step until input, room or the stream ends. */
    method Loop(wnd: Window, out: array<Byte>, ghost hist0: seq<Byte>, ghost future: seq<bool>) returns (put: nat)
      requires Valid() && Remembers(wnd, hist0) && out != wnd.window && Reached(wnd, hist0) && |future| % 8 == 0
      modifies this, r, lens, codes, out
      ensures Valid() && put <= out.Length && (old(Final()) ==> put == 0 && Final())
      ensures Kept(old(Will(hist0, future)), Will(hist0 + out[..put], future), hist0 + out[..put],
        out.Length <= 1)
      ensures Final() || Starving() || put == out.Length
    {
      hide TableFor, NextSymbol, SymbolAction, Inflate, Body, StoredBlock, Bytes, WithTrees, ReadHeader, ReadOrder,
           ReadLens, Copied, Value, Pow2, OneItem, Ring, ReadMatch, ReadDist, ReadDistExtra, AfterStep, StaticLens,
           Fives, TablesReady, FixedReady, LenLensOk, CodeLensOk, Will, Snug, BitReader.Ahead;
      put := 0;
      ghost var was := Will(hist0, future);
      assert hist0 + out[..0] == hist0;
      while mode != DONE && mode != BAD
        invariant Valid() && put <= out.Length && r.input == old(r.input) && (old(Final()) ==> put == 0 && Final())
        invariant Kept(was, Will(hist0 + out[..put], future), hist0 + out[..put],
        out.Length <= 1)
        decreases |r.Ahead()|, out.Length - put, Rank()
      {
        var leave;
        ghost var now, h := Will(hist0 + out[..put], future), hist0 + out[..put];
        if mode == TYPEDO || mode == STORED || mode == TABLE || mode == LENLENS || mode == CODELENS {
          leave := HeaderStep(hist0 + out[..put], future);
        } else {
          leave, put := DataStep(wnd, out, put, hist0, future);
        }
        KeptOn(was, now, Will(hist0 + out[..put], future), h, hist0 + out[..put], out.Length <= 1);
        if leave { return; }
      }
    }

    /** New input does not change what the stream will yield. */
    method StartCall(more: seq<Byte>, ghost hist0: seq<Byte>, ghost future: seq<bool>)
      requires Valid()
      modifies r
      ensures Valid() && Will(hist0, future) == old(Will(hist0, BytesToBits(more) + future))
    {
      hide TableFor, NextSymbol, SymbolAction, Inflate, Body, StoredBlock, Bytes, WithTrees, ReadHeader, ReadOrder,
           ReadLens, Copied, Value, Pow2, OneItem, Ring, ReadMatch, ReadDist, ReadDistExtra, AfterStep, StaticLens,
           Fives, TablesReady, FixedReady, LenLensOk, CodeLensOk, BytesToBits;
      ghost var bs := r.Ahead();
      r.Feed(more);
      assert r.Ahead() + future == bs + (BytesToBits(more) + future);
    }

    /** One call of inflate: as far as input and room go. `more` is the new input, `out` the room for output, and
        `hist0` what earlier calls have yielded. */
    method Call(wnd: Window, out: array<Byte>, more: seq<Byte>, finish: bool, ghost hist0: seq<Byte>,
                ghost future: seq<bool>)
      returns (put: nat)
      requires Valid() && Remembers(wnd, hist0) && out != wnd.window && Reached(wnd, hist0) && |future| % 8 == 0
      modifies this, r, lens, codes, wnd, wnd.window, out
      ensures Valid() && put <= out.Length && Remembers(wnd, hist0 + out[..put])
      ensures Kept(old(Will(hist0, BytesToBits(more) + future)), Will(hist0 + out[..put], future), hist0 + out[..put],
        out.Length <= 1)
      ensures Final() || Starving() || put == out.Length
    {
      hide TableFor, NextSymbol, SymbolAction, Inflate, Body, StoredBlock, Bytes, WithTrees, ReadHeader, ReadOrder,
           ReadLens, Copied, Value, Pow2, OneItem, Ring, ReadMatch, ReadDist, ReadDistExtra, AfterStep, StaticLens,
           Fives, TablesReady, FixedReady, LenLensOk, CodeLensOk, BytesToBits, Will;
      StartCall(more, hist0, future);
      put := Loop(wnd, out, hist0, future);
      if wnd.wsize != 0 || (put > 0 && mode != BAD && (mode != DONE || !finish)) {
        wnd.Update(out, put, hist0);
      }
      assert put == 0 ==> hist0 + out[..put] == hist0;
    }
  }

  /** The input of some calls, in order. */
  function Joined(calls: seq<(seq<Byte>, nat)>): seq<Byte>
  {
    if calls == [] then [] else calls[0].0 + Joined(calls[1..])
  }

  /** No call has room for more than a byte. */
  ghost predicate Tight(calls: seq<(seq<Byte>, nat)>) { forall i :: 0 <= i < |calls| ==> calls[i].1 <= 1 }

  /** Any sequence of calls, each with its piece of input and its room for output: what they yield together and what
      the state will yield make up what the whole input inflates to. `filled` if the last call ran out of room. */
  method Run(inf: Inflater, wnd: Window, calls: seq<(seq<Byte>, nat)>, ghost hist0: seq<Byte>, ghost future: seq<bool>)
    returns (yielded: seq<Byte>, filled: bool)
    requires inf.Valid() && inf.Remembers(wnd, hist0) && |future| % 8 == 0
    requires wnd.window.Length == inf.reach || (hist0 == [] && |calls| <= 1)
    modifies inf, inf.r, inf.lens, inf.codes, wnd, wnd.window
    ensures inf.Valid() && inf.Remembers(wnd, hist0 + yielded)
    ensures Kept(old(inf.Will(hist0, BytesToBits(Joined(calls)) + future)), inf.Will(hist0 + yielded, future),
      hist0 + yielded, Tight(calls))
    ensures calls != [] ==> inf.Final() || inf.Starving() || filled
    decreases calls
  {
    hide Inflater.Will, Inflater.Valid, Inflater.Starving, Inflater.Final, BytesToBits, Ring, Kept;
    ghost var tight := Tight(calls);
    ghost var was := inf.Will(hist0, BytesToBits(Joined(calls)) + future);
    if calls == [] {
      NoCalls(inf, hist0, future);
      KeptUnlessFar(was, was, [], hist0, tight);
      return [], false;
    }
    var tail := Joined(calls[1..]);
    BytesConcat(calls[0].0, tail);
    assert BytesToBits(calls[0].0 + tail) + future == BytesToBits(calls[0].0) + (BytesToBits(tail) + future);
    var out := new Byte[calls[0].1];
    var put;
    put := inf.Call(wnd, out, calls[0].0, false, hist0, BytesToBits(tail) + future);
    ghost var now, h := inf.Will(hist0 + out[..put], BytesToBits(tail) + future), hist0 + out[..put];
    KeptLoose(was, now, h, out.Length <= 1, tight);
    if |calls| == 1 {
      NoCalls(inf, hist0, future);
      return out[..put], put == out.Length;
    }
    var more;
    more, filled := Run(inf, wnd, calls[1..], hist0 + out[..put], future);
    yielded := out[..put] + more;
    assert hist0 + out[..put] + more == hist0 + yielded;
    KeptLoose(now, inf.Will(hist0 + yielded, future), hist0 + yielded, Tight(calls[1..]), tight);
    KeptOn(was, now, inf.Will(hist0 + yielded, future), h, hist0 + yielded, tight);
  }

  lemma NoCalls(inf: Inflater, hist0: seq<Byte>, future: seq<bool>)
    ensures BytesToBits([]) + future == future && hist0 + [] == hist0
  {
  }

  /** Decoding a stream from its beginning, with a window of any size: whatever the pieces, unless a match reaches back
      further than the window, a run that ends yields exactly what the stream inflates to, a run that fails has
      yielded what precedes the error, and a run that does neither, although it has room, has yielded all there is of
      a stream that is cut short. Up to a match that reaches too far, that holds of every stream. */
  method InflateStream(calls: seq<(seq<Byte>, nat)>, size: nat) returns (yielded: seq<Byte>, mode: Mode, filled: bool)
    requires calls != [] && size >= 1
    ensures var stream := Inflate(false, [], BytesToBits(Joined(calls)), MAXBITS, size);
      if stream.TooFar? then
        && (stream.hist <= yielded || (filled && yielded <= stream.hist))
        && (Tight(calls) ==> if mode == BAD then yielded == stream.hist else mode != DONE && filled)
      else
        && (mode == DONE ==> stream.Finished? && stream.hist == yielded)
        && (mode == BAD ==> stream == Failed(yielded))
        && (mode != DONE && mode != BAD ==> if filled then yielded <= stream.hist else stream == Starved(yielded))
  {
    hide Inflate, BytesToBits, Inflater.Valid, Inflater.Starving;
    var inf := new Inflater(size);
    var wnd := new Window(size);
    StartsAt(inf, BytesToBits(Joined(calls)));
    yielded, filled := Run(inf, wnd, calls, [], []);
    mode := inf.mode;
    assert [] + yielded == yielded;
    EndsAt(inf, yielded);
    inf.WillGrow(yielded, []);
  }

  /** A new decoder will yield what the stream inflates to. */
  lemma StartsAt(inf: Inflater, bs: seq<bool>)
    requires inf.Valid() && inf.mode == TYPEDO && !inf.last && inf.r.Ahead() == []
    ensures inf.Will([], bs + []) == Inflate(false, [], bs, MAXBITS, inf.reach)
  {
    hide Inflate;
    assert inf.r.Ahead() + (bs + []) == bs;
  }

  lemma EndsAt(inf: Inflater, hist: seq<Byte>)
    requires inf.Valid()
    ensures inf.mode == DONE ==> inf.Will(hist, []) == Finished(hist, inf.r.Ahead() + [])
    ensures inf.mode == BAD ==> inf.Will(hist, []) == Failed(hist)
    ensures inf.Starving() ==> inf.Will(hist, []) == Starved(hist)
  {
    hide Inflater.Starving, Inflater.Will;
    if inf.mode == DONE { inf.AtDone(hist, []); }
    if inf.mode == BAD { inf.AtBad(hist, []); }
    if inf.Starving() { inf.Starves(hist); }
  }
}
