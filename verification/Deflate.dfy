/** deflate.c: a compressed stream made by any sequence of calls, and what it inflates to. */
module Deflate {
  import opened BitWriter
  import opened Inflated
  import opened Compressed
  import opened Stream
  import opened Matcher
  import opened Tokens
  import opened BlockSize
  import opened FlushBlock
  import opened Deflater

  datatype Ret = OK | STREAM_END | BUF_ERROR | STREAM_ERROR

  /** The order of the flush modes, the weakest first. */
  function Rank(flush: Flush): int
  {
    match flush
    case NoFlush => 0
    case BlockFlush => 1
    case PartialFlush => 2
    case SyncFlush => 4
    case FullFlush => 6
    case FinishFlush => 8
  }

  /** A stream without a wrapper. */
  class Compressor {
    const d: Deflater
    var finished: bool
    var lastRank: int

    ghost predicate Valid()
      reads this, d.Repr()
    {
      if finished then d.Coder() && d.Complete() && d.s.lookahead == 0 else d.Ready() && d.Mode()
    }

    constructor (d: Deflater)
      requires d.Ready() && d.Mode()
      ensures Valid() && this.d == d && !finished
    {
      hide Progress, Matcher.Valid, Encoder.Separate, Encoder.Tokens, Frequencies, TokenOk, BitWriter.Sent,
           BitWriter.Valid, IsStatic, Same, BytesToBits;
      this.d, finished, lastRank := d, false, 0;
    }

    /** Output takes up the room there was, and at most one empty block is sent. */
    twostate predicate Spent()
      reads d
    {
      d.availOut + |d.out| == old(d.availOut + |d.out|) && old(d.out) <= d.out && d.marks <= old(d.marks) + 1
    }

    /** The input and the room of this call. */
    method Start(input: seq<Byte>, room: nat)
      requires Valid()
      modifies d, d.s
      ensures Valid() && d.s.avail == input && d.availOut == room
      ensures d.s.stream == old(d.s.stream) && d.w.Sent() == old(d.w.Sent()) && d.out == old(d.out)
        && d.s.lookahead == old(d.s.lookahead)
      ensures d.marks == old(d.marks) && (finished ==> d.w.biValid == 0 && |d.out| <= |d.w.pending|)
    {
      hide Deflater.Coder, Progress, Matcher.Valid, Encoder.Separate, Encoder.Tokens, BitWriter.Sent, Made, Same,
           AnyRefused;
      d.Allow(room);
      if finished { NotTooMuchOut(d); }
      d.s.Offer(input);
      assert unchanged(d.slt.fc, d.slt.dl, d.sdt.fc, d.sdt.dl);
    }

    /** What is pending goes out first; true if there is no room left after that. */
    method Drain() returns (stop: bool)
      requires Valid() && |d.w.pending| > |d.out|
      modifies this, d, d.w
      ensures Valid() && (stop <==> d.availOut == 0) && finished == old(finished) && (!stop ==> d.Drained())
      ensures d.s.stream == old(d.s.stream) && d.w.Sent() == old(d.w.Sent()) && Spent() && d.marks == old(d.marks)
      ensures old(d.w.biValid) == 0 ==> (stop <==> old(d.availOut) <= old(|d.w.pending| - |d.out|))
    {
      hide Progress, Matcher.Valid, Encoder.Separate, Encoder.Tokens, Frequencies, TokenOk, BitWriter.Sent,
           BitWriter.Valid, IsStatic, Inflate, Same, BytesToBits, Deflater.Recorded, Made;
      WholeBytes(d.w);
      ghost var n := |d.w.pending|;
      d.FlushPending();
      stop := d.availOut == 0;
      WholeBytes(d.w);
      NoMoreOut(d, n);
    }

    /** The compression proper, and the marker of a flush; true if the call must end here. */
    method Work(flush: Flush) returns (stop: bool)
      requires Valid() && !finished && d.Drained()
      modifies this, d.Repr()
      ensures Valid() && d.s.stream + d.s.avail == old(d.s.stream + d.s.avail) && old(d.s.stream) <= d.s.stream
        && Spent()
      ensures finished ==> d.s.avail == [] && flush == FinishFlush
      ensures stop ==> d.availOut == 0 || (d.s.avail == [] && flush == NoFlush)
      ensures !stop ==>
        d.s.avail == [] && d.Drained() && d.w.biValid == |d.w.Sent()| % 8 && (flush == FinishFlush <==> finished)
      ensures !stop && (flush.SyncFlush? || flush.FullFlush?) ==>
        d.w.biValid == 0 && (d.intact ==> Partly(d.w.Sent(), d.s.stream, d.trees, d.s.k.wSize))
    {
      hide Progress, Deflater.Ready, Deflater.Mode, Deflater.Coder, Partly, Made, BitWriter.Sent, BitWriter.Valid,
           Inflate, BytesToBits, AnyRefused;
      var st := d.Compress(flush);
      if st == FinishStarted || st == FinishDone {
        finished := true;
      }
      if st == NeedMore || st == FinishStarted {
        if d.availOut == 0 { lastRank := -2; }
        return true;
      }
      if st == BlockDone {
        stop := Mark(flush);
        return;
      }
      WholeBytes(d.w);
      return false;
    }

    method Mark(flush: Flush) returns (stop: bool)
      requires !finished && d.Ready() && d.Mode() && d.AllSent()
      modifies this, d.Repr()
      ensures d.Ready() && d.Mode() && !finished && d.s.avail == [] && d.s.stream == old(d.s.stream) && Spent()
      ensures stop ==> d.availOut == 0
      ensures !stop ==> d.Drained() && d.w.biValid == |d.w.Sent()| % 8
      ensures !stop && (flush.SyncFlush? || flush.FullFlush?) ==>
        d.w.biValid == 0 && (d.intact ==> Partly(d.w.Sent(), d.s.stream, d.trees, d.s.k.wSize))
    {
      hide Progress, Deflater.Ready, Deflater.Mode, Deflater.Coder, BitWriter.Sent, Inflate, Partly, AnyRefused, Made,
           Encoder.Separate, Encoder.Tokens;
      d.AfterBlock(flush);
      if flush == SyncFlush || flush == FullFlush {
        d.Flushed();
      }
      d.DeliverReady();
      stop := d.availOut == 0;
      if stop { lastRank := -2; }
    }

    /** Nothing can be done: there is no room, or nothing to do that the last call did not do, or more input after the
        end of the stream. */
    ghost predicate Stuck(input: seq<Byte>, room: nat, flush: Flush)
      reads this, d, d.w
    {
      var pending := |d.w.pending| - |d.out|;
      || room == 0
      || (pending <= 0 && input == [] && Rank(flush) <= lastRank && flush != FinishFlush)
      || (finished && input != [] && room > pending)
    }

    /** deflate(). Input is only consumed and output only added, as far as there is room; when the stream ends, the
        output inflates to all the input, and after a sync or full flush that found room, to all the input so far. A
        call to finish ends the stream unless it runs out of room. */
    method Call(input: seq<Byte>, room: nat, flush: Flush) returns (ret: Ret)
      requires Valid()
      modifies this, d.Repr()
      ensures Valid() && old(d.out) <= d.out && d.availOut + |d.out| == room + |old(d.out)|
        && d.marks <= old(d.marks) + 1
      ensures d.s.stream + d.s.avail == old(d.s.stream) + input && old(d.s.stream) <= d.s.stream
      ensures ret == STREAM_ERROR <==> old(finished) && flush != FinishFlush
      ensures ret == BUF_ERROR <==> ret != STREAM_ERROR && old(Stuck(input, room, flush))
      ensures ret == OK ==> d.availOut == 0 || (d.s.avail == [] && flush != FinishFlush)
      ensures ret == OK && d.availOut > 0 && (flush.SyncFlush? || flush.FullFlush?) && d.intact ==>
                Partly(BytesToBits(d.out), d.s.stream, d.trees, d.s.k.wSize)
      ensures ret == STREAM_END ==>
        d.s.avail == [] && flush == FinishFlush && Covers(d.sent, d.s.stream)
      ensures ret == STREAM_END && d.intact ==> Made(BytesToBits(d.out), d.s.stream, d.trees, d.s.k.wSize)
      ensures ret == STREAM_END ==> |d.s.stream| < FEW ==> !AnyRefused(d.trees)
      ensures finished && !old(finished) ==> d.s.avail == [] && flush == FinishFlush
      ensures old(finished) ==>
        finished && (ret == STREAM_END <==> flush == FinishFlush && input == [] && room > old(|d.w.pending| - |d.out|))
    {
      hide Progress, Deflater.Ready, Deflater.Mode, Deflater.Coder, BitWriter.Sent, Inflate, BytesToBits, Made,
           Partly, AnyRefused, Covers, Reach;
      Start(input, room);
      if finished && flush != FinishFlush { return STREAM_ERROR; }
      if room == 0 { return BUF_ERROR; }
      var oldRank := lastRank;
      lastRank := Rank(flush);
      if |d.w.pending| > |d.out| {
        var stop := Drain();
        if stop {
          lastRank := -2;
          return OK;
        }
      } else if |input| == 0 && Rank(flush) <= oldRank && flush != FinishFlush {
        return BUF_ERROR;
      }
      if finished && |input| != 0 { return BUF_ERROR; }
      ret := Proceed(flush);
    }

    /** Once nothing is pending: compress, and say how that ended. */
    method Proceed(flush: Flush) returns (ret: Ret)
      requires Valid() && |d.w.pending| <= |d.out| && (finished ==> flush == FinishFlush && d.s.avail == [])
      modifies this, d.Repr()
      ensures Valid() && Spent() && (old(finished) ==> finished && ret == STREAM_END)
      ensures finished ==> d.s.avail == [] && flush == FinishFlush
      ensures d.s.stream + d.s.avail == old(d.s.stream + d.s.avail) && old(d.s.stream) <= d.s.stream
      ensures (ret == OK || ret == STREAM_END)
        && (ret == OK ==> d.availOut == 0 || (d.s.avail == [] && flush != FinishFlush))
      ensures ret == OK && d.availOut > 0 && (flush.SyncFlush? || flush.FullFlush?) && d.intact ==>
                Partly(BytesToBits(d.out), d.s.stream, d.trees, d.s.k.wSize)
      ensures ret == STREAM_END ==>
        d.s.avail == [] && flush == FinishFlush && Covers(d.sent, d.s.stream)
      ensures ret == STREAM_END && d.intact ==> Made(BytesToBits(d.out), d.s.stream, d.trees, d.s.k.wSize)
      ensures ret == STREAM_END ==> |d.s.stream| < FEW ==> !AnyRefused(d.trees)
    {
      hide Progress, Deflater.Ready, Deflater.Mode, Deflater.Coder, BitWriter.Sent, Inflate, BytesToBits, Made,
           AnyRefused;
      if |d.s.avail| != 0 || d.s.lookahead != 0 || (flush != NoFlush && !finished) {
        NonePending(d);
        var stop := Work(flush);
        if stop { return OK; }
      }
      WholeBytes(d.w);
      AllOut(d);
      if flush != FinishFlush { return OK; }
      return STREAM_END;
    }
  }

  /** With the fixed strategy no block has trees of its own, and with a small buffer none has long codes. */
  lemma SmallBuffer(z: Compressor)
    requires z.Valid() && (z.d.c.fixed || z.d.e.size < FEW)
    ensures !AnyRefused(z.d.trees)
  {
  }

  /** The tokens of the blocks sent are no more than the bytes of the input. */
  lemma Accounted(z: Compressor)
    requires z.Valid()
    ensures z.d.Recorded() && |z.d.sent| <= |z.d.s.stream|
  {
    hide Encoder.Valid, Encoder.Tokens, Encoder.Separate, Matcher.Valid, AllApart, IsStatic, AnyRefused, Made, Covers,
         Carries, BitWriter.Sent, BitWriter.Valid, Deflater.Recorded;
  }

  /** The output is at most nine times as long as the input, but for the empty blocks that flush it and the last. */
  lemma OutBound(z: Compressor)
    requires z.Valid() && z.d.intact
    ensures 8 * |z.d.out| <= 72 * |z.d.s.stream| + 48 * z.d.marks + 48
  {
    hide Encoder.Valid, Encoder.Tokens, Encoder.Separate, Matcher.Valid, AllApart, IsStatic, AnyRefused, Made, Covers,
         Carries, BitWriter.Sent, BitWriter.Valid, Deflater.Recorded;
    BitCount(z.d.out);
  }

  lemma {:induction false} BitCount(bytes: seq<Byte>)
    ensures |BytesToBits(bytes)| == 8 * |bytes|
  {
    if bytes != [] { BitCount(bytes[1..]); }
  }

  lemma NotTooMuchOut(d: Deflater)
    requires d.Coder()
    ensures d.w.biValid == 0 ==> |d.out| <= |d.w.pending|
  {
    hide Encoder.Valid, AllApart, IsStatic, AnyRefused;
  }

  /** At a byte boundary, all the bytes there are have been delivered as far as there was room. */
  lemma NoMoreOut(d: Deflater, n: nat)
    requires BytesToBits(d.out) <= d.w.Sent() && d.w.biValid == |d.w.Sent()| % 8
    ensures |d.w.Sent()| == 8 * n ==> |d.w.pending| == n && |d.out| <= n
  {
  }

  lemma AllOut(d: Deflater)
    ensures d.Coder() && d.w.biValid == 0 && |d.w.pending| <= |d.out| ==> d.out == d.w.pending
  {
    if d.Coder() && d.w.biValid == 0 && |d.w.pending| <= |d.out| {
      assert d.w.Sent() == BytesToBits(d.w.pending) + [];
      BytesPrefix(d.out, d.w.pending, []);
    }
  }

  /** Once nothing is left in the pending buffer, it starts again at its beginning. */
  lemma NonePending(d: Deflater)
    requires d.Ready() && |d.w.pending| <= |d.out|
    ensures d.Drained()
  {
    hide Progress, Matcher.Valid, Encoder.Valid, Encoder.Separate, Encoder.Tokens, BitWriter.Valid, IsStatic,
         Deflater.Recorded, AnyRefused, AllApart, BytesToBits;
    BytesPrefix(d.out, d.w.pending, d.w.Held());
  }

  lemma WholeBytes(w: BitWriter)
    ensures w.biValid == 0 ==> w.Sent() == BytesToBits(w.pending) && |w.Sent()| % 8 == 0
  {
    if w.biValid == 0 {
      EightTimes(|w.pending|, 0);
      assert w.Sent() == BytesToBits(w.pending);
    }
  }
}
