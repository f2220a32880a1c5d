/** deflate.c: compressing, with and without lazy evaluation of matches. */
module Deflater {
  import opened Bits
  import opened BitWriter
  import opened Tokens
  import opened Blocks
  import opened GenCodes
  import opened BlockEncoder
  import opened StaticTrees
  import opened Stream
  import opened Inflated
  import opened Chains
  import opened Matcher
  import opened FlushBlock
  import opened BlockSize
  import opened Compressed
  import opened Overlay

  const TOO_FAR := 4096

  datatype Flush = NoFlush | PartialFlush | SyncFlush | FullFlush | FinishFlush | BlockFlush

  datatype BlockState = NeedMore | BlockDone | FinishStarted | FinishDone

  /** The parameters of a compression level and strategy. */
  datatype Config = Config(level: nat, fixed: bool, filtered: bool, goodLength: nat, maxLazy: nat, niceLength: nat,
    maxChain: nat)

  function Configured(level: nat, fixed: bool, filtered: bool): (c: Config)
    requires 1 <= level <= 9
    ensures c.level == level && c.fixed == fixed && c.maxLazy >= MIN_MATCH && c.maxChain >= 4
  {
    var t := [(4, 4, 8, 4), (4, 5, 16, 8), (4, 6, 32, 32), (4, 4, 16, 16), (8, 16, 32, 32), (8, 16, 128, 128),
              (8, 32, 128, 256), (32, 128, 258, 1024), (32, 258, 258, 4096)][level - 1];
    Config(level, fixed, filtered, t.0, t.1, t.2, t.3)
  }

  /** A window of 256 bytes is not supported, and made one of 512. */
  function WindowBits(windowBits: nat): nat { if windowBits == 8 then 9 else windowBits }

  lemma WindowSizes(bits: nat)
    requires 9 <= bits <= 15
    ensures 512 <= Pow2(bits) <= 0x8000
  {
    Pow2Mono(9, bits);
    Pow2Mono(bits, 15);
    Pow2Values();
  }

  lemma BufferSizes(memLevel: nat)
    requires 1 <= memLevel <= 9
    ensures 128 <= Pow2(memLevel + 6) <= 0x8000 && Pow2(memLevel + 6) % 2 == 0
  {
    Pow2Mono(7, memLevel + 6);
    Pow2Mono(memLevel + 6, 15);
    Pow2Values();
  }

  lemma ProgressStart(w: nat)
    ensures Progress([], 0, 0, [], [], [], [], w, true)
  {
    CarriesNothing(MAX_BITS, w);
    var none: seq<Token> := [];
    assert none + none == none;
  }

  /** The arrays of the search and those of the encoder are different. */
  ghost predicate AllApart(s: Matcher, e: Encoder, slt: Tree, sdt: Tree)
    reads e
  {
    && {s.prev, s.head} !! {e.t.heap, e.t.depth, e.t.blCount, e.lfc, e.ldl, e.dfc, e.ddl, e.bfc, e.bdl, slt.fc, slt.dl,
      sdt.fc, sdt.dl}
    && s.window != e.mem && e.Apart(slt, sdt)
  }

  class Deflater {
    const c: Config
    const s: Matcher
    const e: Encoder
    const w: BitWriter
    const slt: Tree
    const sdt: Tree
    var availOut: nat
    var out: seq<Byte>            // bytes of the output that have left the pending buffer
    var matchLength: nat
    var prevMatch: int
    var matchAvailable: bool
    var intact: bool              // no block sent so far has lost a token
    ghost var blocks: seq<Sending>
    ghost var sent: seq<Token>    // their tokens
    ghost var trees: seq<Codes>   // trees that some of them bring with them
    ghost var marks: nat          // number of empty blocks among them, sent to flush

    ghost predicate Apart()
      reads e
    {
      AllApart(s, e, slt, sdt)
    }

    /** The encoder is in order. */
    ghost predicate Coder()
      reads `out, `trees, `intact, `blocks, `sent, e, e.t, e.lfc, e.dfc, e.bfc, e.mem, w, slt.fc, slt.dl, sdt.fc, sdt.dl
    {
      && Apart() && e.Valid() && w.Valid() && IsStatic(slt, sdt)
      && s.k.wSize <= 0x8000 && e.size >= 2 && 1 <= c.level <= 9 && BytesToBits(out) <= w.Sent()
        && (c.fixed || e.size < FEW ==> !AnyRefused(trees)) && Recorded()
    }

    /** The blocks sent, and whether all of them got through. */
    ghost predicate Recorded()
      reads `intact, `blocks, `sent
    {
      && sent == AllTokens(blocks) && (intact <==> AllThrough(blocks, e.size))
      && AllProper(blocks, c.fixed, e.size, Reach(s.k.wSize))
    }

    /** All whole bytes of the output have been put out. */
    ghost predicate Rested()
      reads w
    {
      w.biValid < 8 && w.base == |w.pending|
    }

    /** They have been delivered, too: the pending buffer is empty. */
    ghost predicate Drained()
      reads this, w
    {
      out == w.pending && Rested()
    }

    /** There is room for one more token before the block must be flushed. */
    ghost predicate Room()
      reads e
    {
      e.lastLit < e.size - 1
    }

    /** The output is not too long for the tokens it stands for. */
    ghost predicate Within(slack: nat)
      reads this, w
    {
      intact ==> |w.Sent()| <= 72 * |sent| + 48 * marks + slack
    }

    /** Output made is only added to, and takes up the room there was; no empty block is sent. */
    twostate predicate Paid()
      reads this
    {
      old(out) <= out && availOut + |out| == old(availOut + |out|) && marks == old(marks)
    }

    /** All input up to `to` is in tokens, and all up to the start of the block in bits. */
    ghost predicate Done(to: int)
      reads this, s, e, e.mem, w
    {
      e.Separate() && Progress(s.stream, s.base + s.blockStart, to, sent, e.Tokens(), w.Sent(), trees, s.k.wSize,
        intact) && Within(0)
    }

    constructor (c: Config, s: Matcher, e: Encoder, w: BitWriter, slt: Tree, sdt: Tree)
      ensures this.c == c && this.s == s && this.e == e && this.w == w && this.slt == slt && this.sdt == sdt
      ensures out == [] && matchLength == 2 && !matchAvailable && sent == [] && trees == [] && marks == 0
      ensures intact && blocks == []
    {
      this.c, this.s, this.e, this.w, this.slt, this.sdt := c, s, e, w, slt, sdt;
      availOut, out, matchLength, prevMatch, matchAvailable := 0, [], 2, 0, false;
      intact, blocks, sent, trees, marks := true, [], [], [], 0;
    }

    /** FLUSH_BLOCK_ONLY: send the tokens collected as a block, or the bytes they stand for if they are still in
        the window. Nothing is pending before. */
    method FlushBlockOnly(last: bool)
      requires Coder() && Drained() && s.Sizes() && s.Shows() && Done(s.base + s.strstart) && s.strstart < 0x1_0000
        && (last || e.lastLit >= 1) && e.lastLit < e.size
      modifies this`intact, this`blocks, this`sent, this`trees, this`availOut, this`out, s`blockStart
      modifies e, w, e.t, e.t.heap, e.t.depth, e.t.blCount, e.lfc, e.ldl, e.dfc, e.ddl, e.bfc, e.bdl
      ensures Coder() && Room() && e.Tokens() == [] && s.blockStart == s.strstart
      ensures old(w.Sent()) <= w.Sent() && Rested() && (availOut > 0 ==> Drained()) && Paid()
      ensures s.Shows() && (old(s.Valid()) ==> s.Valid()) && (old(s.Inserted()) ==> s.Inserted())
      ensures !last ==> Done(s.base + s.strstart)
      ensures last ==> w.biValid == 0 && Ended(s.stream[..s.base + s.strstart])
    {
      hide Coder, Progress, Matcher.Valid, Matcher.Inserted, Matcher.Shows, Encoder.Separate, Encoder.Tokens,
           BitWriter.Sent, Inflate, BlockSent, Brings, AnyRefused, Made, WellSent, GotThrough, Near, Covers, Reach,
           Matcher.Sizes, Rested, BytesToBits;
      InOrder(s.stream, s.base + s.blockStart, s.base + s.strstart, sent, e.Tokens(), w.Sent(), trees, s.k.wSize,
        intact);
      ghost var from, to, tokens, bits := s.base + s.blockStart, s.base + s.strstart, e.Tokens(), w.Sent();
      e.TokenCount();
      ghost var block, x, pad;
      var clean;
      block, x, pad, clean := SendBlock(last);
      if last {
        ProgressLast(s.stream, from, to, sent, tokens, bits, trees, s.k.wSize, intact, block, x.content, x.own, pad,
          clean);
        PaddingFills(|bits + block|);
        assert |w.Sent()| == |bits + block| + |pad|;
      } else {
        ProgressBlock(s.stream, from, to, sent, tokens, bits, trees, s.k.wSize, intact, block, x.content, x.own, clean);
        assert bits + block + [] == bits + block;
      }
      Note(x, clean);
    }

    /** The blocks sent stand for the data, and if all of them got through, the output inflates to it. */
    ghost predicate Ended(data: seq<Byte>)
      reads this, s, w
    {
      && (intact ==> Made(w.Sent(), data, trees, s.k.wSize)) && (|s.stream| < FEW ==> !AnyRefused(trees))
      && Within(48) && |sent| <= |s.stream| && Covers(sent, data)
    }

    /** Keep account of a block. */
    method Note(ghost x: Sending, clean: bool)
      requires Coder() && (c.fixed || e.size < FEW ==> !AnyRefused(x.own))
      requires Proper(x, c.fixed, e.size, Reach(s.k.wSize)) && (clean <==> GotThrough(x, e.size))
      modifies this`intact, this`blocks, this`sent, this`trees
      ensures Coder() && sent == old(sent) + x.tokens && trees == old(trees) + x.own && intact == (old(intact) && clean)
    {
      hide Encoder.Separate, Encoder.Tokens, Frequencies, TokenOk, BitWriter.Sent, BitWriter.Valid, IsStatic,
           AnyRefused, AllTokens, AllThrough, AllProper, GotThrough, Proper;
      RefusedIn(trees, x.own);
      OneMoreBlock(blocks, x, c.fixed, e.size, Reach(s.k.wSize));
      intact, blocks, sent, trees := intact && clean, blocks + [x], sent + x.tokens, trees + x.own;
    }

    /** The encoder makes a block. */
    method Encode(buf: Buf, storedLen: nat, last: bool) returns (ghost block: seq<bool>, ghost x: Sending, clean: bool)
      requires Coder() && Drained() && e.Separate() && (buf.Bytes? ==> |buf.bytes| == storedLen < 0x1_0000)
      modifies e, w, e.t, e.t.heap, e.t.depth, e.t.blCount, e.lfc, e.ldl, e.dfc, e.ddl, e.bfc, e.bdl
      ensures Coder() && e.Separate() && e.Tokens() == [] && Room()
      ensures WellSent(x, c.fixed) && x.tokens == old(e.Tokens()) && (clean <==> GotThrough(x, e.size))
      ensures clean ==> BlockSent(block, last, x.content, |old(w.Sent())|, MAX_BITS) && Brings(block, x.own, MAX_BITS)
      ensures (c.fixed || e.size < FEW || |x.tokens| < FEW) ==> !AnyRefused(x.own)
      ensures clean ==> |block| <= 32 * |x.tokens| + 40
      ensures x.content == Coded(x.tokens) || (buf.Bytes? && x.content == Stored(buf.bytes))
      ensures var end := old(w.Sent()) + block; w.Sent() == end + (if last then ToBits(0, Padding(|end|)) else [])
    {
      hide Encoder.Separate, Encoder.Tokens, Frequencies, TokenOk, BitWriter.Sent, BitWriter.Valid, IsStatic, BlockSent,
           Brings, ToBits, Whole, BytesToBits, AnyRefused, OwnSize, StaticSize, TreesFor, BestWay, Intact, Recorded;
      e.TokenCount();
      ghost var tokens, held := e.Tokens(), w.biValid;
      ghost var content, own, built;
      block, content, own, built, clean := e.FlushBlock(w, slt, sdt, buf, storedLen, last, c.level, c.fixed);
      x := Sending(tokens, buf, content, own, built, held);
    }

    method SendBlock(last: bool) returns (ghost block: seq<bool>, ghost x: Sending, ghost pad: seq<bool>, clean: bool)
      requires Coder() && Drained() && e.Separate() && s.Sizes() && s.Shows() && 0 <= s.base + s.blockStart
        && s.blockStart <= s.strstart < 0x1_0000
      modifies this`availOut, this`out, s`blockStart
      modifies e, w, e.t, e.t.heap, e.t.depth, e.t.blCount, e.lfc, e.ldl, e.dfc, e.ddl, e.bfc, e.bdl
      ensures s.Shows() && (old(s.Valid()) ==> s.Valid()) && (old(s.Inserted()) ==> s.Inserted())
      ensures Coder() && e.Separate() && e.Tokens() == [] && Room() && s.blockStart == s.strstart
        && s.base + s.strstart <= |s.stream|
      ensures WellSent(x, c.fixed) && x.tokens == old(e.Tokens()) && (clean <==> GotThrough(x, e.size))
      ensures clean ==> BlockSent(block, last, x.content, |old(w.Sent())|, MAX_BITS) && Brings(block, x.own, MAX_BITS)
      ensures (c.fixed || e.size < FEW || |x.tokens| < FEW) ==> !AnyRefused(x.own)
      ensures clean ==> |block| <= 32 * |x.tokens| + 40
      ensures Rested() && (availOut > 0 ==> Drained()) && Paid() && w.biValid == |w.Sent()| % 8
      ensures w.Sent() == old(w.Sent()) + block + pad && |pad| == (if last then Padding(|old(w.Sent()) + block|) else 0)
      ensures x.content == Coded(x.tokens)
        || x.content == Stored(s.stream[old(s.base + s.blockStart)..s.base + s.strstart])
    {
      hide Coder, Matcher.Sizes, Matcher.Valid, Matcher.Inserted, Matcher.Shows, Encoder.Separate, Encoder.Tokens,
           BitWriter.Sent, BlockSent, Brings, ToBits, Padding, AnyRefused, WellSent, GotThrough, Drained;
      var buf := BlockBytes();
      assert unchanged(slt.fc, slt.dl, sdt.fc, sdt.dl);
      EncodeApart();
      ghost var bits := w.Sent();
      block, x, clean := Encode(buf, s.strstart - s.blockStart, last);
      pad := if last then ToBits(0, Padding(|bits + block|)) else [];
      Leave();
    }

    /** The next block starts here, and what is pending goes out. */
    method Leave()
      requires Coder() && s.Sizes() && s.Shows()
      modifies this`availOut, this`out, s`blockStart, w
      ensures s.Shows() && s.blockStart == s.strstart && (old(s.Valid()) ==> s.Valid())
        && (old(s.Inserted()) ==> s.Inserted())
      ensures Coder() && w.Sent() == old(w.Sent()) && Paid() && Rested() && (availOut > 0 ==> Drained())
        && w.biValid == |w.Sent()| % 8
    {
      hide Coder, Matcher.Sizes, Matcher.Valid, Matcher.Inserted, Matcher.Shows, Encoder.Separate, Encoder.Tokens,
           BitWriter.Sent;
      s.StartBlock();
      assert unchanged(slt.fc, slt.dl, sdt.fc, sdt.dl);
      Deliver();
    }

    /** The search does not touch the encoder. */
    lemma SearchApart()
      requires Coder()
      ensures Apart()
    {
      hide Encoder.Valid, BitWriter.Sent, BitWriter.Valid, IsStatic, Recorded;
    }

    /** The encoder does not touch the window. */
    lemma EncodeApart()
      requires Coder()
      ensures {s.prev, s.head} !! {e.t.heap, e.t.depth, e.t.blCount, e.lfc, e.ldl, e.dfc, e.ddl, e.bfc, e.bdl}
    {
      hide Encoder.Valid, BitWriter.Sent, BitWriter.Valid, IsStatic, Recorded;
    }

    /** What is pending goes out, as far as there is room. */
    method Deliver()
      requires Coder()
      modifies this`availOut, this`out, w
      ensures Coder() && w.Sent() == old(w.Sent()) && Paid() && Rested() && (availOut > 0 ==> Drained())
        && w.biValid == |w.Sent()| % 8
    {
      hide Encoder.Separate, Encoder.Tokens, Frequencies, TokenOk, BitWriter.Sent, BitWriter.Valid, IsStatic,
           BytesToBits, Recorded;
      FlushPending();
    }

    /** The bytes of the block, if all of them are still in the window. */
    method BlockBytes() returns (buf: Buf)
      requires s.Sizes() && s.Shows() && 0 <= s.base + s.blockStart && s.blockStart <= s.strstart
      ensures s.base + s.strstart <= |s.stream|
      ensures buf.Bytes? ==> s.blockStart >= 0 && buf.bytes == s.stream[s.base + s.blockStart..s.base + s.strstart]
    {
      hide Primed, Chained, Pow2, Recorded;
      buf := if s.blockStart >= 0 then Bytes(s.window[s.blockStart..s.strstart]) else Null;
    }

    /** flush_pending: as many bytes as there is room for leave the pending buffer. */
    method FlushPending()
      requires w.Valid() && BytesToBits(out) <= w.Sent()
      modifies this`availOut, this`out, w
      ensures w.Valid() && w.Sent() == old(w.Sent()) && BytesToBits(out) <= w.Sent()
      ensures Paid() && Rested() && (availOut > 0 ==> Drained()) && w.biValid == |w.Sent()| % 8
    {
      hide ToBits, Pow2, BytesToBits, Recorded;
      w.Flush();
      assert 8 * |out| <= 8 * |w.pending| + w.biValid;
      var len := |w.pending| - |out|;
      if len > availOut { len := availOut; }
      MoreBytes(out, w.pending, |out| + len, w.Held());
      out, availOut := out + w.pending[|out|..|out| + len], availOut - len;
      EightTimes(|w.pending|, w.biValid);
    }

    /** _tr_tally_lit, for the byte at `pos`. */
    method TallyLit(pos: nat) returns (bflush: bool)
      requires Coder() && Room() && s.Shows() && pos < s.strstart + s.lookahead && Done(s.base + pos)
      modifies e, e.lfc, e.dfc, e.mem
      ensures Coder() && 1 <= e.lastLit < e.size && (!bflush ==> Room()) && Done(s.base + pos + 1)
    {
      hide Progress, Frequencies, TokenOk, BitWriter.Sent, BitWriter.Valid, IsStatic, Recorded;
      ProgressLiteral(s.stream, s.base + s.blockStart, s.base + pos, sent, e.Tokens(), w.Sent(), trees, s.k.wSize,
        intact);
      bflush := e.Tally(0, s.window[pos]);
    }

    /** _tr_tally_dist, for a match at `pos`. */
    method TallyDist(pos: nat, start: int, len: nat) returns (bflush: bool)
      requires Coder() && Room() && s.IsMatch(start, pos, len) && len >= 3 && Done(s.base + pos)
      modifies e, e.lfc, e.dfc, e.mem
      ensures Coder() && 1 <= e.lastLit < e.size && (!bflush ==> Room()) && Done(s.base + pos + len)
    {
      hide Progress, Frequencies, TokenOk, BitWriter.Sent, BitWriter.Valid, IsStatic, Recorded;
      ProgressMatch(s.stream, s.base + s.blockStart, s.base + pos, sent, e.Tokens(), w.Sent(), trees, s.k.wSize,
        intact, pos - start, len);
      bflush := e.Tally(pos - start, len - MIN_MATCH);
    }

    /** deflate_fast: look for a match at `strstart`. */
    method FastSearch()
      requires s.Valid() && matchLength < 3 && s.prevLength == 2 && s.strstart <= s.window.Length - MIN_LOOKAHEAD
      modifies this`matchLength, s`insH, s`ins, s`matchStart, s.prev, s.head
      ensures s.Inserted() && s.Shows() && matchLength <= MAX_MATCH
      ensures matchLength >= 3 ==> s.IsMatch(s.matchStart, s.strstart, matchLength) && matchLength <= s.lookahead
    {
      hide HashAt, Known, Pow2, Primed, Chained, Candidates, Recorded;
      var hashHead := s.InsertHere();
      if hashHead != 0 && s.strstart - hashHead <= s.MaxDist() {
        matchLength := s.LongestMatch(hashHead, c.maxChain, c.goodLength, c.niceLength);
      }
    }

    /** One turn of deflate_fast: a match if there is one, else a literal. */
    method FastStep() returns (bflush: bool)
      requires Coder() && Room() && s.Valid() && Done(s.base + s.strstart)
      requires s.lookahead >= 1 && matchLength < 3 && s.prevLength == 2 && s.strstart <= s.window.Length - MIN_LOOKAHEAD
      modifies this`matchLength, s`insH, s`ins, s`matchStart, s`strstart, s`lookahead, s.prev, s.head
      modifies e, e.lfc, e.dfc, e.mem
      ensures Coder() && 1 <= e.lastLit < e.size && (!bflush ==> Room()) && s.Valid() && Done(s.base + s.strstart)
        && matchLength < 3
      ensures old(s.strstart) < s.strstart <= s.window.Length - 4
        && s.strstart + s.lookahead == old(s.strstart + s.lookahead)
    {
      hide Coder, Progress, Matcher.Valid, Matcher.Inserted, Matcher.Shows, Matcher.IsMatch, Encoder.Separate,
           Encoder.Tokens, Frequencies, TokenOk, BitWriter.Sent, BitWriter.Valid, IsStatic;
      SearchApart();
      FastSearch();
      assert unchanged(slt.fc, slt.dl, sdt.fc, sdt.dl, e, w, e.lfc, e.dfc, e.mem);
      if matchLength >= MIN_MATCH {
        bflush := TallyDist(s.strstart, s.matchStart, matchLength);
        s.AfterMatch(matchLength, c.maxLazy);
        matchLength := 0;
      } else {
        bflush := TallyLit(s.strstart);
        s.AfterLiteral();
      }
    }

    /** Between calls: all input read is in tokens, but for the byte at hand if a match there is being put off. */
    ghost predicate Ready()
      reads this, s, s.window, s.prev, s.head, e, e.t, e.lfc, e.dfc, e.bfc, e.mem, w, slt.fc, slt.dl, sdt.fc,
            sdt.dl
    {
      Coder() && Room() && Rested() && s.Valid() && Done(s.base + s.strstart - if matchAvailable then 1 else 0)
    }

    /** The output is complete: it inflates to the input. */
    ghost predicate Complete()
      reads this, s, w
    {
      w.biValid == 0 && Ended(s.stream)
    }

    /** How a call ends: out of input or of room, with all input in blocks, or with the last block. */
    ghost predicate Outcome(flush: Flush, st: BlockState)
      reads this, s, s.window, s.prev, s.head, e, e.t, e.lfc, e.dfc, e.bfc, e.mem, w, slt.fc, slt.dl, sdt.fc,
            sdt.dl
    {
      && (st.NeedMore? ==> Ready() && (availOut == 0 || (s.avail == [] && flush == NoFlush)))
      && (st.BlockDone? ==> Ready() && AllSent() && Drained() && flush != FinishFlush && flush != NoFlush)
      && (st.FinishStarted? || st.FinishDone? ==>
        Coder() && Complete() && s.avail == [] && s.lookahead == 0 && flush == FinishFlush)
      && (st.FinishStarted? ==> availOut == 0) && (st.FinishDone? ==> Drained())
    }

    /** All input is in the blocks sent. */
    ghost predicate AllSent()
      reads this, s, e, e.mem
    {
      e.Separate() && s.avail == [] && s.lookahead == 0 && !matchAvailable && s.blockStart == s.strstart
        && e.Tokens() == []
    }

    /** The buffer has room for a token besides the one that fills it. */
    lemma TwoTokens()
      requires Coder()
      ensures e.size >= 2
    {
      hide AllApart, Encoder.Valid, BitWriter.Sent, BitWriter.Valid, IsStatic, Recorded;
    }

    /** When there is no more input: flush what is left. */
    method EndBlock(flush: Flush) returns (st: BlockState)
      requires Coder() && Drained() && s.Valid() && Done(s.base + s.strstart) && s.strstart < 0x1_0000
        && s.lookahead == 0 && !matchAvailable
      requires e.lastLit < e.size
      modifies this`intact, this`blocks, this`sent, this`trees, this`availOut, this`out, s`blockStart, s`insert
      modifies e, w, e.t, e.t.heap, e.t.depth, e.t.blCount, e.lfc, e.ldl, e.dfc, e.ddl, e.bfc, e.bdl
      ensures flush == FinishFlush <==> st.FinishStarted? || st.FinishDone?
      ensures flush == FinishFlush ==> Coder() && Complete() && (if st.FinishDone? then Drained() else availOut == 0)
      ensures old(w.Sent()) <= w.Sent() && Paid()
      ensures flush != FinishFlush ==>
        Ready() && s.blockStart == s.strstart && e.Tokens() == [] && if st.NeedMore? then availOut == 0 else Drained()
    {
      hide Coder, Progress, Matcher.ChainsOk, Matcher.HashReady, Matcher.Inserted, Encoder.Separate, BitWriter.Sent,
           Inflate, Matcher.Sizes, Made, Covers, AnyRefused, Encoder.Tokens;
      s.EndInput();
      assert unchanged(slt.fc, slt.dl, sdt.fc, sdt.dl);
      if flush == FinishFlush {
        FlushBlockOnly(true);
        assert s.stream[..s.base + s.strstart] == s.stream;
        return if availOut == 0 then FinishStarted else FinishDone;
      }
      if e.lastLit > 0 {
        FlushBlockOnly(false);
        if availOut == 0 { return NeedMore; }
      } else {
        e.TokenCount();
        NothingCollected(s.stream, s.base + s.blockStart, s.base + s.strstart, sent, e.Tokens(), w.Sent(), trees,
          s.k.wSize, intact);
        TwoTokens();
      }
      return BlockDone;
    }

    /** Input read and output made are only added to. */
    twostate predicate Onward()
      reads this, s, w
    {
      s.stream + s.avail == old(s.stream + s.avail) && old(s.stream) <= s.stream && old(w.Sent()) <= w.Sent() && Paid()
    }

    /** The match put off, if there is one, starts a byte back. */
    ghost predicate Lazy()
      reads this, s
    {
      && 2 <= matchLength <= MAX_MATCH && (matchAvailable ==> s.strstart >= 1)
      && (matchLength >= 3 ==> matchAvailable && s.IsMatch(s.matchStart, s.strstart - 1, matchLength))
    }

    /** More input. */
    method Fill()
      requires Ready() && s.lookahead < MIN_LOOKAHEAD
      modifies s, s.window, s.prev, s.head
      ensures Ready() && (old(Lazy()) ==> Lazy()) && s.prevLength == old(s.prevLength) && Onward()
        && s.base + s.strstart == old(s.base + s.strstart)
      ensures s.Sizes() && s.Shows() && |s.stream| == s.base + s.strstart + s.lookahead
      ensures s.strstart <= s.window.Length - MIN_LOOKAHEAD && (s.lookahead >= MIN_LOOKAHEAD || s.avail == [])
    {
      hide Progress, Matcher.Valid, Matcher.Inserted, Matcher.Shows, Encoder.Separate, Encoder.Tokens, Frequencies,
           TokenOk, BitWriter.Sent, BitWriter.Valid, IsStatic, Inflate, Same, Recorded;
      ghost var stream, at, m := s.stream, s.base + s.strstart - 1, s.base + s.matchStart;
      s.FillWindow();
      s.Inside();
      ProgressMore(stream, s.stream, s.base + s.blockStart, s.base + s.strstart - (if matchAvailable then 1 else 0),
        sent, e.Tokens(), w.Sent(), trees, s.k.wSize, intact);
      if old(Lazy()) && matchLength >= 3 {
        SameMore(stream, s.stream, m, at, matchLength);
      }
    }

    /** Windows and blocks are small. */
    lemma Small()
      requires Coder() && s.Sizes()
      ensures s.window.Length <= 0x1_0000
    {
      hide Encoder.Valid, BitWriter.Valid, BitWriter.Sent, IsStatic, BytesToBits, Pow2, Recorded;
    }

    /** FLUSH_BLOCK, if the block is full; true if there is no more room for output. */
    method FlushIf(bflush: bool) returns (stop: bool)
      requires Coder() && Drained() && (s.Valid() || s.Inserted()) && Done(s.base + s.strstart)
      requires s.strstart <= s.window.Length - 4 && 1 <= e.lastLit < e.size && (!bflush ==> Room())
      modifies this`intact, this`blocks, this`sent, this`trees, this`availOut, this`out, s`blockStart
      modifies e, w, e.t, e.t.heap, e.t.depth, e.t.blCount, e.lfc, e.ldl, e.dfc, e.ddl, e.bfc, e.bdl
      ensures Coder() && Room() && Rested() && Done(s.base + s.strstart) && (if stop then availOut == 0 else Drained())
      ensures (old(s.Valid()) ==> s.Valid()) && (old(s.Inserted()) ==> s.Inserted())
      ensures old(w.Sent()) <= w.Sent() && Paid()
    {
      hide Coder, Progress, Matcher.Valid, Matcher.Inserted, Matcher.Shows, Encoder.Separate, Encoder.Tokens,
           BitWriter.Sent, Inflate;
      stop := false;
      if bflush {
        s.Inside();
        Small();
        FlushBlockOnly(false);
        stop := availOut == 0;
      }
    }

    /** What deflate_fast keeps between its turns. */
    ghost predicate Eager()
      reads this, s
    {
      !matchAvailable && matchLength < 3 && s.prevLength == 2
    }

    /** One turn of deflate_fast; true if there is no more room for output. */
    method FastTurn() returns (stop: bool)
      requires Ready() && Drained() && Eager() && s.lookahead >= 1 && s.strstart <= s.window.Length - MIN_LOOKAHEAD
      modifies this, s, s.prev, s.head, e, w, e.t, e.t.heap, e.t.depth, e.t.blCount, e.lfc, e.ldl, e.dfc, e.ddl, e.bfc,
               e.bdl, e.mem
      ensures Ready() && Eager() && (if stop then availOut == 0 else Drained())
      ensures s.avail == old(s.avail) && s.stream == old(s.stream) && s.base == old(s.base)
        && s.strstart > old(s.strstart)
      ensures old(w.Sent()) <= w.Sent() && Paid()
    {
      hide Coder, Progress, Matcher.Valid, Matcher.Inserted, Matcher.Shows, Encoder.Separate, Encoder.Tokens,
           BitWriter.Sent, Inflate, Same;
      var bflush := FastStep();
      stop := FlushIf(bflush);
    }

    /** deflate_fast: no match is put off for a longer one at the next byte. */
    method DeflateFast(flush: Flush) returns (st: BlockState)
      requires Ready() && Drained() && Eager()
      modifies this, s, s.window, s.prev, s.head, e, w, e.t, e.t.heap, e.t.depth, e.t.blCount, e.lfc, e.ldl, e.dfc,
               e.ddl, e.bfc, e.bdl, e.mem
      ensures Onward() && Eager() && Outcome(flush, st)
    {
      hide Coder, Progress, Matcher.Valid, Matcher.Inserted, Matcher.Shows, Encoder.Separate, Encoder.Tokens,
           BitWriter.Sent, Inflate, Same, Done, Within, Room;
      while true
        invariant Ready() && Drained() && Eager() && Onward()
        decreases |s.stream + s.avail| - s.base - s.strstart
      {
        s.Inside();
        if s.lookahead < MIN_LOOKAHEAD {
          Fill();
          if s.lookahead < MIN_LOOKAHEAD && flush == NoFlush { return NeedMore; }
          if s.lookahead == 0 { break; }
        }
        var stop := FastTurn();
        if stop { return NeedMore; }
      }
      st := EndFast(flush);
    }

    method EndFast(flush: Flush) returns (st: BlockState)
      requires Ready() && Drained() && Eager() && s.lookahead == 0 && s.avail == [] && flush != NoFlush
        && s.strstart <= s.window.Length - MIN_LOOKAHEAD
      modifies this, s, e, w, e.t, e.t.heap, e.t.depth, e.t.blCount, e.lfc, e.ldl, e.dfc, e.ddl, e.bfc, e.bdl, e.mem
      ensures s.stream == old(s.stream) && s.avail == [] && old(w.Sent()) <= w.Sent() && Paid()
      ensures Eager() && Outcome(flush, st)
    {
      hide Coder, Progress, Matcher.Valid, Matcher.Inserted, Matcher.Shows, Encoder.Separate, Encoder.Tokens,
           BitWriter.Sent, Inflate, Same;
      s.Inside();
      Small();
      st := EndBlock(flush);
    }

    /** The match at the byte before, and a longer one here if there is one. */
    ghost predicate Found()
      reads this, s
    {
      && 2 <= s.prevLength <= MAX_MATCH && 2 <= matchLength <= MAX_MATCH && (matchAvailable ==> s.strstart >= 1)
      && (s.prevLength >= 3 ==> matchAvailable && s.IsMatch(prevMatch, s.strstart - 1, s.prevLength))
      && (matchLength > s.prevLength ==> s.IsMatch(s.matchStart, s.strstart, matchLength))
    }

    /** deflate_slow: put off the match at the byte before, and look for a longer one here. */
    method LazySearch()
      requires s.Valid() && Lazy() && s.strstart <= s.window.Length - MIN_LOOKAHEAD
      modifies this`matchLength, this`prevMatch, s`insH, s`ins, s`matchStart, s`prevLength, s.prev, s.head
      ensures s.Inserted() && s.Shows() && Found()
    {
      hide HashAt, Known, Matcher.Valid, Matcher.Inserted, Matcher.Agrees, Candidates, Same, Recorded;
      var hashHead := s.InsertHere();
      s.PutOff(matchLength);
      prevMatch := s.matchStart;
      matchLength := MIN_MATCH - 1;
      if hashHead != 0 && s.prevLength < c.maxLazy && s.strstart - hashHead <= s.MaxDist() {
        matchLength := s.LongestMatch(hashHead, c.maxChain, c.goodLength, c.niceLength);
        if matchLength <= 5 && (c.filtered || (matchLength == MIN_MATCH && s.strstart - s.matchStart > TOO_FAR)) {
          matchLength := MIN_MATCH - 1;
        }
      }
      s.Inside();
    }

    /** The match at the byte before is not beaten: it is adopted. */
    method LazyMatch() returns (bflush: bool)
      requires Coder() && Room() && s.Inserted() && Done(s.base + s.strstart - 1) && Found()
      requires s.prevLength >= 3 && matchLength <= s.prevLength && s.strstart <= s.window.Length - MIN_LOOKAHEAD
      modifies this`matchLength, this`matchAvailable, s`insH, s`ins, s`strstart, s`lookahead, s`prevLength, s.prev,
               s.head
      modifies e, e.lfc, e.dfc, e.mem
      ensures Coder() && 1 <= e.lastLit < e.size && (!bflush ==> Room()) && s.Valid() && Done(s.base + s.strstart)
        && !matchAvailable && Lazy()
      ensures old(s.strstart) < s.strstart <= s.window.Length - 4
        && s.strstart + s.lookahead == old(s.strstart + s.lookahead)
    {
      hide Coder, Progress, Matcher.Valid, Matcher.Inserted, Matcher.Shows, Matcher.IsMatch, Encoder.Separate,
           Encoder.Tokens, Frequencies, TokenOk, BitWriter.Sent, BitWriter.Valid, IsStatic;
      s.Inside();
      s.MatchFits(prevMatch, s.strstart - 1, s.prevLength);
      SearchApart();
      bflush := TallyDist(s.strstart - 1, prevMatch, s.prevLength);
      PassMatch();
      matchAvailable, matchLength := false, MIN_MATCH - 1;
    }

    /** On to the end of the match adopted. */
    method PassMatch()
      requires Coder() && s.Inserted() && Done(s.base + s.strstart - 1 + s.prevLength)
      requires 3 <= s.prevLength <= MAX_MATCH && 1 <= s.strstart && s.prevLength <= s.lookahead + 1
        && s.strstart <= s.window.Length - MIN_LOOKAHEAD
      modifies s`insH, s`ins, s`strstart, s`lookahead, s`prevLength, s.prev, s.head
      ensures Coder() && s.Valid() && Done(s.base + s.strstart)
      ensures s.strstart == old(s.strstart) - 1 + old(s.prevLength)
        && s.strstart + s.lookahead == old(s.strstart + s.lookahead)
    {
      hide Coder, Progress, Matcher.Valid, Matcher.Inserted, Matcher.Shows, Encoder.Separate, Encoder.Tokens,
           BitWriter.Sent, BitWriter.Valid;
      SearchApart();
      assert unchanged(slt.fc, slt.dl, sdt.fc, sdt.dl);
      s.AfterLazyMatch(s.prevLength);
    }

    /** The byte before is a literal: there was no match there, or there is a longer one here. */
    method LazyLiteral()
      requires Coder() && Room() && Drained() && s.Inserted() && matchAvailable && Done(s.base + s.strstart - 1)
        && Found() && s.lookahead >= 1
      requires s.prevLength < 3 || matchLength > s.prevLength
      requires s.strstart <= s.window.Length - MIN_LOOKAHEAD
      modifies this`intact, this`blocks, this`sent, this`trees, this`availOut, this`out, s`blockStart, s`strstart,
               s`lookahead
      modifies e, w, e.t, e.t.heap, e.t.depth, e.t.blCount, e.lfc, e.ldl, e.dfc, e.ddl, e.bfc, e.bdl, e.mem
      ensures Coder() && Room() && Rested() && s.Valid() && Done(s.base + s.strstart - 1) && Lazy()
      ensures s.strstart == old(s.strstart) + 1 && s.lookahead == old(s.lookahead) - 1 && old(w.Sent()) <= w.Sent()
        && Paid() && (availOut > 0 ==> Drained())
    {
      hide Coder, Progress, Matcher.Valid, Matcher.Inserted, Matcher.Shows, Encoder.Separate, Encoder.Tokens,
           BitWriter.Sent, Inflate, Same;
      var bflush := TallyBefore();
      var stop := FlushIf(bflush);
      PassLiteral();
    }

    /** The byte before becomes a literal. */
    method TallyBefore() returns (bflush: bool)
      requires Coder() && Room() && s.Inserted() && s.strstart >= 1 && Done(s.base + s.strstart - 1)
      modifies e, e.lfc, e.dfc, e.mem
      ensures Coder() && s.Inserted() && 1 <= e.lastLit < e.size && (!bflush ==> Room()) && Done(s.base + s.strstart)
    {
      hide Progress, Matcher.Valid, Matcher.Inserted, Matcher.Shows, Encoder.Separate, Encoder.Tokens, Frequencies,
           TokenOk, BitWriter.Sent, BitWriter.Valid, IsStatic, Recorded;
      s.Inside();
      bflush := TallyLit(s.strstart - 1);
    }

    /** On to the next byte. */
    method PassLiteral()
      requires Coder() && Room() && s.Inserted() && Done(s.base + s.strstart) && s.lookahead >= 1
      modifies s`strstart, s`lookahead
      ensures Coder() && Room() && s.Valid() && Done(s.base + s.strstart - 1)
      ensures s.strstart == old(s.strstart) + 1 && s.lookahead == old(s.lookahead) - 1
    {
      hide Progress, Matcher.Valid, Matcher.Inserted, Matcher.Shows, Encoder.Separate, Encoder.Tokens, Frequencies,
           TokenOk, BitWriter.Sent, BitWriter.Valid, IsStatic, Recorded;
      s.AfterLiteral();
    }

    /** The search, for a thread of tokens that stays as it is. */
    method LazyLook()
      requires Ready() && Lazy() && s.strstart <= s.window.Length - MIN_LOOKAHEAD
      modifies this`matchLength, this`prevMatch, s`insH, s`ins, s`matchStart, s`prevLength, s.prev, s.head
      ensures Coder() && Room() && s.Inserted() && s.Shows() && Found()
        && Done(s.base + s.strstart - if matchAvailable then 1 else 0)
    {
      hide Progress, Matcher.Valid, Matcher.Inserted, Matcher.Shows, Found, Encoder.Separate, Encoder.Tokens,
           Frequencies, TokenOk, BitWriter.Sent, BitWriter.Valid, IsStatic, Same, Recorded;
      LazySearch();
    }

    /** The match at the byte before is adopted, and the block flushed if it is full. */
    method Adopt() returns (stop: bool)
      requires Coder() && Room() && Drained() && s.Inserted() && Done(s.base + s.strstart - 1) && Found()
      requires s.prevLength >= 3 && matchLength <= s.prevLength && s.strstart <= s.window.Length - MIN_LOOKAHEAD
      modifies this, s, s.prev, s.head, e, w, e.t, e.t.heap, e.t.depth, e.t.blCount, e.lfc, e.ldl, e.dfc, e.ddl, e.bfc,
               e.bdl, e.mem
      ensures Ready() && Lazy() && (if stop then availOut == 0 else Drained())
      ensures s.avail == old(s.avail) && s.stream == old(s.stream) && s.base == old(s.base)
        && s.strstart > old(s.strstart)
      ensures old(w.Sent()) <= w.Sent() && Paid()
    {
      hide Coder, Progress, Matcher.Valid, Matcher.Inserted, Matcher.Shows, Encoder.Separate, Encoder.Tokens,
           BitWriter.Sent, Inflate, Same;
      var bflush := LazyMatch();
      stop := FlushIf(bflush);
    }

    /** There was nothing to put off: the byte at hand is. */
    method Defer()
      requires Coder() && Room() && Rested() && s.Inserted() && Done(s.base + s.strstart) && Found() && !matchAvailable
        && s.lookahead >= 1
      modifies this`matchAvailable, s`strstart, s`lookahead
      ensures Ready() && Lazy() && s.strstart == old(s.strstart) + 1
    {
      hide Progress, Matcher.Valid, Matcher.Inserted, Matcher.Shows, Encoder.Separate, Encoder.Tokens, Frequencies,
           TokenOk, BitWriter.Sent, BitWriter.Valid, IsStatic, Same, Recorded;
      matchAvailable := true;
      s.AfterLiteral();
    }

    /** One turn of deflate_slow; true if there is no more room for output. */
    method LazyStep() returns (stop: bool)
      requires Ready() && Drained() && Lazy() && s.lookahead >= 1 && s.strstart <= s.window.Length - MIN_LOOKAHEAD
      modifies this, s, s.prev, s.head, e, w, e.t, e.t.heap, e.t.depth, e.t.blCount, e.lfc, e.ldl, e.dfc, e.ddl, e.bfc,
               e.bdl, e.mem
      ensures Ready() && Lazy() && (if stop then availOut == 0 else Drained())
      ensures s.avail == old(s.avail) && s.stream == old(s.stream) && s.base == old(s.base)
        && s.strstart > old(s.strstart)
      ensures old(w.Sent()) <= w.Sent() && Paid()
    {
      hide Coder, Progress, Matcher.Valid, Matcher.Inserted, Matcher.Shows, Encoder.Separate, Encoder.Tokens,
           BitWriter.Sent, Inflate, Same;
      LazyLook();
      if s.prevLength >= MIN_MATCH && matchLength <= s.prevLength {
        stop := Adopt();
      } else if matchAvailable {
        LazyLiteral();
        stop := availOut == 0;
      } else {
        Defer();
        stop := false;
      }
    }

    /** deflate_slow: a match is adopted only if there is no longer one at the next byte. */
    method DeflateSlow(flush: Flush) returns (st: BlockState)
      requires Ready() && Drained() && Lazy()
      modifies this, s, s.window, s.prev, s.head, e, w, e.t, e.t.heap, e.t.depth, e.t.blCount, e.lfc, e.ldl, e.dfc,
               e.ddl, e.bfc, e.bdl, e.mem
      ensures Onward() && Lazy() && Outcome(flush, st)
    {
      hide Coder, Room, Progress, Matcher.Valid, Matcher.Inserted, Matcher.Shows, Encoder.Separate, Encoder.Tokens,
           BitWriter.Sent, Inflate, Same, Done, Within, Matcher.Sizes;
      while true
        invariant Ready() && Drained() && Lazy() && Onward()
        decreases |s.stream + s.avail| - s.base - s.strstart
      {
        s.Inside();
        if s.lookahead < MIN_LOOKAHEAD {
          Fill();
          if s.lookahead < MIN_LOOKAHEAD && flush == NoFlush { return NeedMore; }
          if s.lookahead == 0 { break; }
        }
        var stop := LazyStep();
        if stop { return NeedMore; }
      }
      st := EndLazy(flush);
    }

    /** The byte before, if it was put off, and what is left of the block. */
    method EndLazy(flush: Flush) returns (st: BlockState)
      requires Ready() && Drained() && Lazy() && s.lookahead == 0 && s.avail == [] && flush != NoFlush
        && s.strstart <= s.window.Length - MIN_LOOKAHEAD
      modifies this, s, e, w, e.t, e.t.heap, e.t.depth, e.t.blCount, e.lfc, e.ldl, e.dfc, e.ddl, e.bfc, e.bdl, e.mem
      ensures s.stream == old(s.stream) && s.avail == [] && old(w.Sent()) <= w.Sent() && Paid()
      ensures Lazy() && Outcome(flush, st)
    {
      hide Coder, Progress, Matcher.Valid, Matcher.Inserted, Matcher.Shows, Encoder.Separate, Encoder.Tokens,
           BitWriter.Sent, Inflate, Matcher.IsMatch;
      s.Inside();
      Small();
      NoneAtEnd();
      LastByte();
      st := EndBlock(flush);
    }

    /** No match is put off at the end of the input. */
    lemma NoneAtEnd()
      requires s.Valid() && Lazy() && s.lookahead == 0
      ensures matchLength == 2
    {
      hide Matcher.Valid, Matcher.Inserted, Matcher.Shows, Same, Recorded;
      s.Inside();
      if matchLength >= 3 { s.MatchFits(s.matchStart, s.strstart - 1, matchLength); }
    }

    /** The byte before, if it was put off, is a literal. */
    method LastByte()
      requires Ready() && Lazy() && s.lookahead == 0 && s.Shows()
      modifies this, e, e.lfc, e.dfc, e.mem
      ensures Coder() && s.Valid() && Done(s.base + s.strstart) && !matchAvailable && e.lastLit < e.size
      ensures matchLength == old(matchLength) && out == old(out) && availOut == old(availOut) && marks == old(marks)
    {
      hide Progress, Matcher.Valid, Matcher.Inserted, Matcher.Shows, Encoder.Separate, Encoder.Tokens, Frequencies,
           TokenOk, BitWriter.Sent, BitWriter.Valid, IsStatic, Same, Recorded;
      if matchAvailable {
        var bflush := TallyLit(s.strstart - 1);
        matchAvailable := false;
      }
    }

    /** What the search of this level keeps between calls. */
    ghost predicate Mode()
      reads this, s
    {
      if c.level <= 3 then Eager() else Lazy()
    }

    /** All objects of the compressor. */
    ghost function Repr(): set<object>
    {
      {this, s, s.window, s.prev, s.head, w} + Objects(e, slt, sdt)
    }

    method Compress(flush: Flush) returns (st: BlockState)
      requires Ready() && Drained() && Mode()
      modifies Repr()
      ensures Onward() && Mode() && Outcome(flush, st)
    {
      hide Ready, Lazy, Eager, Outcome, Onward, Recorded;
      if c.level <= 3 {
        st := DeflateFast(flush);
      } else {
        st := DeflateSlow(flush);
      }
    }

    /** The room for output of a call. */
    method Allow(room: nat)
      requires Coder()
      modifies this`availOut
      ensures Coder() && availOut == room && (old(Ready() && Mode()) ==> Ready() && Mode())
        && (old(Complete()) ==> Complete())
    {
      hide Progress, Matcher.Valid, Encoder.Valid, Encoder.Separate, Encoder.Tokens, BitWriter.Sent, BitWriter.Valid,
           IsStatic, Made, Same, AnyRefused, BytesToBits, AllApart, Recorded;
      availOut := room;
      assert unchanged(slt.fc, slt.dl, sdt.fc, sdt.dl);
    }

    method DeliverReady()
      requires Ready() && Mode()
      modifies this`availOut, this`out, w
      ensures Ready() && Mode() && w.Sent() == old(w.Sent()) && Paid() && (availOut > 0 ==> Drained())
        && w.biValid == |w.Sent()| % 8
    {
      hide Coder, Progress, Matcher.Valid, Encoder.Separate, Encoder.Tokens, BitWriter.Sent, Same;
      Deliver();
    }

    /** _tr_align: an empty block with the static trees. */
    method Align()
      requires Ready() && AllSent()
      modifies w, this`marks
      ensures Ready() && AllSent() && old(w.Sent()) <= w.Sent() && marks == old(marks) + 1
    {
      hide Progress, Matcher.Valid, Encoder.Separate, Encoder.Tokens, Frequencies, TokenOk, BitWriter.Sent,
           BitWriter.Valid, IsStatic, BlockSent, Recorded;
      ghost var bits := w.Sent();
      ghost var block := SendAlign(w, slt, sdt);
      marks := marks + 1;
      ProgressBlock(s.stream, s.base + s.blockStart, s.base + s.strstart, sent, e.Tokens(), bits, trees, s.k.wSize,
        intact, block, Coded([]), [], true);
      assert sent + [] == sent && trees + [] == trees;
    }

    /** _tr_stored_block, of no bytes: the output is at a byte boundary. */
    method EmptyStored()
      requires Ready() && AllSent()
      modifies w, this`marks
      ensures Ready() && AllSent() && old(w.Sent()) <= w.Sent() && |w.Sent()| % 8 == 0 && marks == old(marks) + 1
    {
      hide Progress, Matcher.Valid, Encoder.Separate, Encoder.Tokens, Frequencies, TokenOk, BitWriter.Sent,
           BitWriter.Valid, IsStatic, ToBits, BlockSent, StoredBits, Recorded;
      ghost var bits := w.Sent();
      ghost var block := ToBits(Bit(false), 3) + StoredBits([], |bits| + 3);
      StoredSent(false, [], |bits|, MAX_BITS);
      BringsNone(false, 0, StoredBits([], |bits| + 3), MAX_BITS);
      InOrder(s.stream, s.base + s.blockStart, s.base + s.strstart, sent, e.Tokens(), bits, trees, s.k.wSize,
        intact);
      assert s.stream[s.base + s.blockStart..s.base + s.strstart] == [];
      ProgressBlock(s.stream, s.base + s.blockStart, s.base + s.strstart, sent, e.Tokens(), bits, trees, s.k.wSize,
        intact, block, Stored([]), [], true);
      assert sent + [] == sent && trees + [] == trees;
      SendStored(w, [], false);
      marks := marks + 1;
      StoredSize(false, [], |bits| + 3);
      StoredAligned(|bits|);
    }

    /** No more matches with what precedes a full flush. */
    method Restart()
      requires Ready() && Mode() && AllSent()
      modifies s, s.head
      ensures Ready() && Mode() && AllSent() && s.stream == old(s.stream) && s.avail == old(s.avail) && s.ins == {}
    {
      hide Progress, Matcher.Valid, Encoder.Separate, Encoder.Tokens, Frequencies, TokenOk, BitWriter.Sent,
           BitWriter.Valid, IsStatic, Recorded;
      s.Forget();
    }

    /** After a flush: a marker block, and no more matches with what precedes it if the flush is full. */
    method AfterBlock(flush: Flush)
      requires Ready() && Mode() && AllSent()
      modifies Repr()
      ensures Ready() && Mode() && AllSent() && s.stream == old(s.stream) && s.avail == old(s.avail)
      ensures old(w.Sent()) <= w.Sent() && out == old(out) && availOut == old(availOut) && marks <= old(marks) + 1
      ensures flush.SyncFlush? || flush.FullFlush? ==> |w.Sent()| % 8 == 0
      ensures flush.FullFlush? ==> s.ins == {}
    {
      hide Coder, Room, Progress, Matcher.Valid, Matcher.Inserted, Matcher.Shows, Encoder.Separate, Encoder.Tokens,
           BitWriter.Sent, Inflate, Same;
      if flush == PartialFlush {
        Align();
      } else if flush != BlockFlush {
        EmptyStored();
        if flush == FullFlush {
          Restart();
        }
      }
    }

    /** Once all input is in blocks that end on a byte boundary, the output inflates to all of it. */
    lemma Flushed()
      requires Ready() && AllSent() && |w.Sent()| % 8 == 0
      ensures intact ==> Partly(w.Sent(), s.stream, trees, s.k.wSize)
    {
      hide Inflate, Covers, Carries, BitWriter.Sent, Recorded;
      s.Inside();
      assert s.stream[..s.base + s.blockStart] == s.stream;
      if intact { CarriesWhole(w.Sent(), s.stream, trees, s.k.wSize); }
    }
  }

  /** deflateInit2, for a stream without a wrapper. */
  method DeflateInit2(level: nat, fixed: bool, filtered: bool, windowBits: nat, memLevel: nat) returns (d: Deflater)
    requires 1 <= level <= 9 && 8 <= windowBits <= 15 && 1 <= memLevel <= 9
    ensures fresh(d.Repr()) && d.Ready() && d.Mode() && d.s.stream == [] && d.s.avail == [] && d.out == []
      && d.w.Sent() == [] && d.c.fixed == fixed
    ensures d.s.k.wSize == Pow2(WindowBits(windowBits)) && d.e.size == Pow2(memLevel + 6) && d.marks == 0
  {
    hide Deflater.Ready, Deflater.Mode, Progress, Matcher.Valid, Encoder.Separate, Encoder.Tokens, BitWriter.Sent,
         BitWriter.Valid, Frequencies, TokenOk, StaticLens, Fives, Pow2;
    var wBits := WindowBits(windowBits);
    WindowSizes(wBits);
    BufferSizes(memLevel);
    var e, slt, sdt := NewEncoder(Pow2(memLevel + 6));
    var w := new BitWriter();
    var s := new Matcher(Pow2(wBits), (memLevel + 9) / 3, memLevel + 7);
    d := Assemble(Configured(level, fixed, filtered), s, e, w, slt, sdt);
  }

  method NewEncoder(litBufSize: nat) returns (e: Encoder, slt: Tree, sdt: Tree)
    requires litBufSize <= 0x8000 && litBufSize % 2 == 0
    ensures fresh(Objects(e, slt, sdt)) && e.Valid() && IsStatic(slt, sdt) && e.Apart(slt, sdt)
    ensures e.Tokens() == [] && e.lastLit == 0 && e.size == litBufSize
  {
    hide Encoder.Separate, Encoder.Tokens, Frequencies, TokenOk, StaticLens, Fives;
    slt, sdt := StaticInit();
    e := new Encoder(litBufSize);
  }

  /** The objects of an encoder. */
  ghost function Objects(e: Encoder, slt: Tree, sdt: Tree): set<object>
  {
    {e, e.t, e.t.heap, e.t.depth, e.t.blCount, e.lfc, e.ldl, e.dfc, e.ddl, e.bfc, e.bdl, e.mem, slt.fc, slt.dl,
      sdt.fc, sdt.dl}
  }

  method Assemble(c: Config, s: Matcher, e: Encoder, w: BitWriter, slt: Tree, sdt: Tree) returns (d: Deflater)
    requires s.Valid() && e.Valid() && w.Valid() && IsStatic(slt, sdt) && AllApart(s, e, slt, sdt)
    requires s.stream == [] && s.base == 0 == s.strstart == s.blockStart && s.prevLength == 2 && e.Tokens() == []
      && w.Sent() == [] && w.base == 0
    requires s.k.wSize <= 0x8000 && e.size >= 2 && e.lastLit == 0 && 1 <= c.level <= 9
    ensures fresh(d) && d.c == c && d.s == s && d.e == e && d.w == w && d.slt == slt && d.sdt == sdt && d.out == []
      && d.marks == 0
    ensures d.Ready() && d.Mode()
  {
    hide Progress, Matcher.Valid, Encoder.Separate, Encoder.Tokens, Frequencies, TokenOk, BitWriter.Valid,
         BitWriter.Sent, IsStatic, AllApart;
    d := new Deflater(c, s, e, w, slt, sdt);
    SentSize(w);
    ProgressStart(s.k.wSize);
  }

  lemma EightTimes(n: nat, r: nat)
    requires r < 8
    ensures (8 * n + r) % 8 == r
  {
  }

  lemma FourMore(n: nat)
    requires n % 8 == 0
    ensures (n + 32) % 8 == 0
  {
  }

  lemma StoredAligned(n: nat)
    ensures (n + |ToBits(Bit(false), 3) + StoredBits([], n + 3)|) % 8 == 0
  {
    hide Padding, ToBits;
    PaddingFills(n + 3);
    var p := Padding(n + 3);
    assert |StoredBits([], n + 3)| == p + 32;
    FourMore(n + 3 + p);
  }

  lemma NothingCollected(stream: seq<Byte>, from: int, to: int, sent: seq<Token>, tokens: seq<Token>, bits: seq<bool>,
                         trees: seq<Codes>, w: nat, intact: bool)
    requires Progress(stream, from, to, sent, tokens, bits, trees, w, intact) && tokens == []
    ensures from == to
  {
    assert sent + tokens == sent;
  }

  lemma InOrder(stream: seq<Byte>, from: int, to: int, sent: seq<Token>, tokens: seq<Token>, bits: seq<bool>,
                trees: seq<Codes>, w: nat, intact: bool)
    requires Progress(stream, from, to, sent, tokens, bits, trees, w, intact)
    ensures 0 <= from <= to <= |stream| && |sent| + |tokens| <= to && Near(tokens, Reach(w))
  {
  }
}
