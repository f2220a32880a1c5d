/** Compressing and decompressing: what goes in comes out. */
module RoundTrip {
  import opened Bits
  import opened BitWriter
  import opened GenCodes
  import opened Blocks
  import opened Stream
  import opened Inflated
  import opened Outcomes
  import opened FlushBlock
  import opened Overlay
  import opened Density
  import opened Tokens
  import opened Compressed
  import opened Deflater
  import opened Deflate
  import opened Inflater

  /** One call of deflate: input, room for output, and how to flush. */
  datatype Request = Request(input: seq<Byte>, room: nat, flush: Flush)

  /** The input of some calls, in order. */
  function Fed(calls: seq<Request>): seq<Byte>
  {
    if calls == [] then [] else calls[0].input + Fed(calls[1..])
  }

  /** Room in the calls that ask for the end of the stream. */
  function FinishRoom(calls: seq<Request>): nat
  {
    if calls == [] then 0 else (if calls[0].flush == FinishFlush then calls[0].room else 0) + FinishRoom(calls[1..])
  }

  /** All of them ask for the end, and none brings more input. */
  ghost predicate Finishing(calls: seq<Request>)
  {
    forall i :: 0 <= i < |calls| ==> calls[i].flush == FinishFlush && calls[i].input == []
  }

  /** After a call that asks for the end, all others do and none brings more input. */
  ghost predicate Obedient(calls: seq<Request>)
  {
    forall i :: 0 <= i < |calls| && calls[i].flush == FinishFlush ==> Finishing(calls[i + 1..])
  }

  lemma ObedientRest(calls: seq<Request>)
    requires calls != [] && Obedient(calls)
    ensures Obedient(calls[1..]) && (calls[0].flush == FinishFlush ==> Finishing(calls[1..]))
  {
    forall i | 0 <= i < |calls[1..]| && calls[1..][i].flush == FinishFlush ensures Finishing(calls[1..][i + 1..]) {
      assert calls[1..][i] == calls[i + 1] && calls[1..][i + 1..] == calls[i + 2..];
    }
  }

  /** Any sequence of calls; what a call leaves of its input goes into the next. Once the stream ends, after `used`
      calls, all the output inflates to all their input if every block got through. Calls that ask for the end use up
      all their room before. */
  method Session(z: Compressor, calls: seq<Request>, left0: seq<Byte>) returns (left: seq<Byte>, used: nat, ended: bool)
    requires z.Valid()
    modifies z, z.d.Repr()
    ensures z.Valid() && old(z.d.out) <= z.d.out && used <= |calls| && z.d.marks <= old(z.d.marks) + used
    ensures z.d.s.stream + left == old(z.d.s.stream) + left0 + Fed(calls[..used])
    ensures if ended then left == [] && Covers(z.d.sent, z.d.s.stream) else used == |calls|
    ensures ended && z.d.intact ==> Made(BytesToBits(z.d.out), z.d.s.stream, z.d.trees, z.d.s.k.wSize)
    ensures ended && |z.d.s.stream| < FEW ==> !AnyRefused(z.d.trees)
    ensures !ended && Obedient(calls) && (old(z.finished) ==> left0 == [] && Finishing(calls)) ==>
      |z.d.out| >= |old(z.d.out)| + FinishRoom(calls)
    decreases calls
  {
    hide Compressor.Valid, Inflate, BytesToBits, Made, AnyRefused, Obedient, Finishing, Fed;
    ghost var was := z.d.s.stream;
    if calls == [] {
      NothingFed();
      assert left0 + [] == left0;
      return left0, 0, false;
    }
    var ret := z.Call(left0 + calls[0].input, calls[0].room, calls[0].flush);
    if ret == STREAM_END {
      NothingFed();
      FedStep(calls, 1);
      FedOn(was, left0, calls[0].input, z.d.s.stream, z.d.s.avail, [], z.d.s.stream, []);
      return [], 1, true;
    }
    if Obedient(calls) { ObedientRest(calls); }
    if Finishing(calls) { FinishingRest(calls); }
    ghost var now, avail := z.d.s.stream, z.d.s.avail;
    left, used, ended := Session(z, calls[1..], z.d.s.avail);
    used := used + 1;
    FedStep(calls, used);
    FedOn(was, left0, calls[0].input, now, avail, Fed(calls[1..][..used - 1]), z.d.s.stream, left);
  }

  lemma NothingFed()
    ensures Fed([]) == []
  {
  }

  lemma FedOn(was: seq<Byte>, left0: seq<Byte>, input: seq<Byte>, now: seq<Byte>, avail: seq<Byte>, rest: seq<Byte>,
              stream: seq<Byte>, left: seq<Byte>)
    requires now + avail == was + (left0 + input) && stream + left == now + avail + rest
    ensures stream + left == was + left0 + (input + rest)
  {
  }

  lemma FinishingRest(calls: seq<Request>)
    requires calls != [] && Finishing(calls)
    ensures calls[0].flush == FinishFlush && calls[0].input == [] && Finishing(calls[1..])
  {
  }

  lemma FedStep(calls: seq<Request>, n: nat)
    requires 1 <= n <= |calls|
    ensures Fed(calls[..n]) == calls[0].input + Fed(calls[1..][..n - 1]) && calls[1..][..n - 1] == calls[1..n]
  {
    assert calls[..n][1..] == calls[1..][..n - 1];
  }

  /** The compressed bytes, cut into pieces of the given sizes, each to be inflated with the given room; the last
      piece is all that is left. */
  function Cut(bytes: seq<Byte>, cuts: seq<(nat, nat)>, room: nat): (calls: seq<(seq<Byte>, nat)>)
    ensures Joined(calls) == bytes && calls != []
    decreases cuts
  {
    if cuts == [] || cuts[0].0 > |bytes| then
      assert [(bytes, room)][1..] == [];
      assert bytes + [] == bytes;
      [(bytes, room)]
    else
      var (n, r) := cuts[0];
      var rest := Cut(bytes[n..], cuts[1..], room);
      assert ([(bytes[..n], r)] + rest)[1..] == rest && bytes[..n] + bytes[n..] == bytes;
      [(bytes[..n], r)] + rest
  }

  /** The decoder refuses one of the trees that blocks of this stream bring with them. */
  ghost predicate Spoiled(packed: seq<Byte>) { AnyRefused(TreesIn(BytesToBits(packed), 0, MAX_BITS)) }

  /** Compressing: what was compressed to its end is a stream of what went in, unless the decoder refuses a tree, if all
      `blocks` got through. They do if no token takes more than 24 bits or all tokens together are few. */
  method Compress(level: nat, fixed: bool, filtered: bool, windowBits: nat, memLevel: nat, calls: seq<Request>)
    returns (used: nat, ended: bool, packed: seq<Byte>, intact: bool, ghost blocks: seq<Sending>)
    requires 1 <= level <= 9 && 8 <= windowBits <= 15 && 1 <= memLevel <= 9
    ensures used <= |calls| && (!ended ==> used == |calls|)
    ensures ended && intact ==>
      var r := Inflate(false, [], BytesToBits(packed), MAX_BITS, Pow2(WindowBits(windowBits)));
      if Spoiled(packed) then r.Failed? else r == Finished(Fed(calls[..used]), [])
    ensures intact <==> AllThrough(blocks, Pow2(memLevel + 6))
    ensures AllProper(blocks, fixed, Pow2(memLevel + 6), Reach(Pow2(WindowBits(windowBits))))
    ensures ended ==> Covers(AllTokens(blocks), Fed(calls[..used]))
    ensures Safe(fixed, windowBits, memLevel, |Fed(calls[..used])|) ==> intact
    ensures ended && intact && (fixed || memLevel <= 4 || |Fed(calls[..used])| < 1596) ==> !Spoiled(packed)
    ensures Obedient(calls) && 8 * FinishRoom(calls) > 72 * |Fed(calls)| + 48 * |calls| + 48 ==> ended || !intact
  {
    hide Inflate, BytesToBits, AnyRefused, Spoiled, Made, Obedient, Compressor.Valid, Fed, FinishRoom, AllTokens,
         AllThrough, AllProper, Covers, Safe, Pow2;
    var d := DeflateInit2(level, fixed, filtered, windowBits, memLevel);
    var z := new Compressor(d);
    var left;
    left, used, ended := Session(z, calls, []);
    if fixed || memLevel <= 4 {
      if memLevel <= 4 { SmallBlocks(memLevel); }
      SmallBuffer(z);
    }
    AllFed(z.d.s.stream, left, Fed(calls[..used]));
    if !ended { assert calls[..used] == calls; }
    intact, blocks := z.d.intact, z.d.blocks;
    if intact { OutBound(z); }
    packed := z.d.out;
    if ended && intact { WhenMade(packed, z.d.s.stream, z.d.trees, Pow2(WindowBits(windowBits))); }
    Accounted(z);
    ghost var fed := |Fed(calls[..used])|;
    if Safe(fixed, windowBits, memLevel, fed) { WhenSafe(blocks, fixed, windowBits, memLevel, fed); }
  }

  /** Parameters, and sizes of the input, with which all blocks get through: few bytes, and otherwise a small window for
      the fixed strategy, and a buffer that is large for the window and the input for the others. */
  predicate Safe(fixed: bool, windowBits: nat, memLevel: nat, fed: nat)
  {
    var size := Pow2(memLevel + 6);
    || 4 * fed < size
    || if fixed then windowBits <= 9 else Roomy(if fed < size then fed else size - 1, WindowBits(windowBits), size)
  }

  /** Settings that are safe for input of any size. */
  lemma SafeSettings(windowBits: nat, memLevel: nat, fed: nat)
    requires 8 <= windowBits
    requires (memLevel == 3 && windowBits <= 9) || (memLevel == 4 && windowBits <= 11)
      || (memLevel == 5 && windowBits <= 12)
    ensures Safe(false, windowBits, memLevel, fed)
  {
    hide Pow2, Roomy;
    var size := Pow2(memLevel + 6);
    assert size == if memLevel == 3 then 512 else if memLevel == 4 then 1024 else 2048 by { SmallPowers(); }
    var k := WindowBits(windowBits);
    assert Roomy(size - 1, k, size) by { RoomyFor(k, size); }
    if fed < size { RoomyLess(fed, size - 1, k, size); }
  }

  lemma RoomyFor(k: nat, size: nat)
    requires (size == 512 && k == 9) || (size == 1024 && 9 <= k <= 11) || (size == 2048 && 9 <= k <= 12)
    ensures Roomy(size - 1, k, size)
  {
  }

  lemma RoomyLess(n: nat, n2: nat, k: nat, size: nat)
    requires Roomy(n2, k, size) && n <= n2
    ensures Roomy(n, k, size)
  {
    MulMono(n, n2, k - 8);
  }

  lemma WhenSafe(blocks: seq<Sending>, fixed: bool, windowBits: nat, memLevel: nat, fed: nat)
    requires AllProper(blocks, fixed, Pow2(memLevel + 6), Reach(Pow2(WindowBits(windowBits))))
    requires |AllTokens(blocks)| <= fed && Safe(fixed, windowBits, memLevel, fed) && 8 <= windowBits
    ensures AllThrough(blocks, Pow2(memLevel + 6))
  {
    hide Pow2, GotThrough, WellSent, AllTokens, Roomy;
    var size, k := Pow2(memLevel + 6), WindowBits(windowBits);
    forall i | 0 <= i < |blocks| ensures GotThrough(blocks[i], size) {
      TokensOfBlock(blocks, i);
      assert Proper(blocks[i], fixed, size, Reach(Pow2(k)));
      if 4 * fed < size {
        FewThrough(blocks[i], fixed, size);
      } else if fixed {
        assert Pow2(9) == 512 by { Pow2Values(); }
        FixedThrough(blocks[i], size);
      } else {
        RoomyLess(|blocks[i].tokens|, if fed < size then fed else size - 1, k, size);
        RoomyThrough(blocks[i], k, size);
      }
    }
  }

  lemma AllFed(stream: seq<Byte>, left: seq<Byte>, fed: seq<Byte>)
    requires stream + left == [] + [] + fed
    ensures |stream| <= |fed| && (left == [] ==> stream == fed)
  {
    assert |stream + left| == |stream| + |left|;
    if left == [] { assert stream + left == stream && [] + [] + fed == fed; }
  }

  lemma WhenMade(packed: seq<Byte>, data: seq<Byte>, trees: seq<Codes>, w: nat)
    requires Made(BytesToBits(packed), data, trees, w)
    ensures Spoiled(packed) <==> AnyRefused(trees)
    ensures var r := Inflate(false, [], BytesToBits(packed), MAX_BITS, w);
      if Spoiled(packed) then r.Failed? else r == Finished(data, [])
  {
    hide Inflate, BytesToBits, AnyRefused, TreesIn;
  }

  /** Whatever the level, the sizes and the pieces: what was compressed to its end decompresses to what went in, if
      every block got through, the decompressor has a window no smaller and does not run out of room, exactly unless it
      refuses one of the trees in it, and then it fails. It refuses none if only static trees are used, if the blocks
      have at most 1024 tokens each, or if there are fewer than 1596 bytes of input. The stream does come to its end if
      the calls that ask for that have room enough. */
  method RoundTrip(level: nat, fixed: bool, filtered: bool, windowBits: nat, memLevel: nat, calls: seq<Request>,
                   size: nat, cuts: seq<(nat, nat)>, room: nat)
    returns (used: nat, ended: bool, packed: seq<Byte>, intact: bool, ghost blocks: seq<Sending>, yielded: seq<Byte>,
             mode: Mode, filled: bool)
    requires 1 <= level <= 9 && 8 <= windowBits <= 15 && 1 <= memLevel <= 9 && size >= Pow2(WindowBits(windowBits))
    ensures used <= |calls| && (!ended ==> used == |calls|)
    ensures ended && intact && !filled ==> mode == if Spoiled(packed) then BAD else DONE
    ensures ended && intact && mode == DONE ==> yielded == Fed(calls[..used])
    ensures ended && intact && mode == BAD ==> Spoiled(packed)
    ensures intact <==> AllThrough(blocks, Pow2(memLevel + 6))
    ensures AllProper(blocks, fixed, Pow2(memLevel + 6), Reach(Pow2(WindowBits(windowBits))))
    ensures ended ==> Covers(AllTokens(blocks), Fed(calls[..used]))
    ensures Safe(fixed, windowBits, memLevel, |Fed(calls[..used])|) ==> intact
    ensures ended && intact && (fixed || memLevel <= 4 || |Fed(calls[..used])| < 1596) ==> !Spoiled(packed)
    ensures Obedient(calls) && 8 * FinishRoom(calls) > 72 * |Fed(calls)| + 48 * |calls| + 48 ==> ended || !intact
  {
    hide Inflate, BytesToBits, Spoiled, Obedient, Fed, FinishRoom, AllTokens, AllThrough, AllProper, Covers, Safe, Pow2;
    used, ended, packed, intact, blocks := Compress(level, fixed, filtered, windowBits, memLevel, calls);
    InflateWider(false, [], BytesToBits(packed), MAX_BITS, Pow2(WindowBits(windowBits)), size);
    yielded, mode, filled := InflateStream(Cut(packed, cuts, room), size);
  }

  lemma SmallBlocks(memLevel: nat)
    requires memLevel <= 4
    ensures Pow2(memLevel + 6) <= 1024 < FEW
  {
    Pow2Mono(memLevel + 6, 10);
    Pow2Values();
    assert Pow2(10) == 1024;
  }
}
