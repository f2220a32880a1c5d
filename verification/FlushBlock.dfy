/** trees.c and deflate.h: collecting the tokens of a block and sending it the cheapest way. */
module FlushBlock {
  import opened Bits
  import opened BitWriter
  import opened Canonical
  import opened GenCodes
  import opened SetSum
  import opened Huffman
  import opened TreeBuild
  import opened BitLengths
  import opened CodeLengths
  import opened DecodeTable
  import opened Header
  import opened SubTables
  import opened Tokens
  import opened Blocks
  import opened BlockEncoder
  import opened TreeSender
  import opened BlockSize
  import opened BlockTrees
  import InflateTable
  import opened Stream
  import opened StaticTrees

  const L_CODES := 286
  const D_CODES := 30
  const BL_CODES := 19
  const HEAP_SIZE := 573

  /** The padding after the last block. */
  method PadOut(w: BitWriter)
    requires w.Valid()
    modifies w
    ensures w.Valid() && w.biValid == 0 && w.Sent() == old(w.Sent()) + ToBits(0, Padding(|old(w.Sent())|))
  {
    hide ToBits, BitWriter.Sent, BitWriter.Valid;
    w.Windup();
  }

  /** The two match buffers and the three dynamic trees of a block. */
  class Encoder {
    const t: TreeState
    const lfc: array<nat>
    const ldl: array<nat>
    const dfc: array<nat>
    const ddl: array<nat>
    const bfc: array<nat>
    const bdl: array<nat>
    const size: nat
    const mem: array<Byte>  // tokens and pending output
    var lastLit: nat
    var matches: nat

    /** All arrays are different, and as large as the library makes them. */
    ghost predicate Separate()
      reads this
    {
      && t.heap !in {t.depth, t.blCount, lfc, ldl, dfc, ddl, bfc, bdl}
      && t.depth !in {t.blCount, lfc, ldl, dfc, ddl, bfc, bdl} && t.blCount !in {lfc, ldl, dfc, ddl, bfc, bdl}
      && lfc !in {ldl, dfc, ddl, bfc, bdl} && ldl !in {dfc, ddl, bfc, bdl} && dfc !in {ddl, bfc, bdl}
      && ddl !in {bfc, bdl} && bfc != bdl
      && t.heap.Length == t.depth.Length == lfc.Length == ldl.Length == HEAP_SIZE && t.blCount.Length == 16
      && dfc.Length == ddl.Length == 2 * D_CODES + 1 && bfc.Length == bdl.Length == 2 * BL_CODES + 1
      && mem.Length == 4 * size && size % 2 == 0 && size <= 0x8000 && lastLit <= size
    }

    /** The tokens collected since the last block. */
    ghost function Tokens(): seq<Token>
      reads this, mem
    {
      if lastLit <= size && mem.Length == 4 * size then Buffered(mem[..], size, lastLit) else []
    }

    /** Collecting: the frequencies are those of the tokens, and nothing is predicted yet. */
    ghost predicate Valid()
      reads this, t, lfc, dfc, bfc, mem
    {
      && Separate() && (forall i :: 0 <= i < lastLit ==> TokenOk(Tokens()[i]))
      && Frequencies(lfc[..], dfc[..], Tokens()) && (forall s :: 0 <= s < BL_CODES ==> bfc[s] == 0)
      && t.optLen == 0 && t.staticLen == 0
    }

    constructor (litBufSize: nat)
      requires litBufSize <= 0x8000 && litBufSize % 2 == 0
      ensures Valid() && Tokens() == [] && lastLit == 0 && size == litBufSize && mem.Length == 4 * size
      ensures fresh(t) && fresh(t.heap) && fresh(t.depth) && fresh(t.blCount) && fresh(lfc) && fresh(ldl) && fresh(dfc)
      ensures fresh(ddl) && fresh(bfc) && fresh(bdl) && fresh(mem)
    {
      t := new TreeState(HEAP_SIZE);
      lfc, ldl := new nat[HEAP_SIZE], new nat[HEAP_SIZE];
      dfc, ddl := new nat[2 * D_CODES + 1], new nat[2 * D_CODES + 1];
      bfc, bdl := new nat[2 * BL_CODES + 1], new nat[2 * BL_CODES + 1];
      size, mem := litBufSize, new Byte[4 * litBufSize];
      lastLit, matches := 0, 0;
      new;
      InitBlock();
    }

    lemma TokenCount()
      ensures Separate() ==> |Tokens()| == lastLit <= size
      ensures Valid() ==> |Tokens()| == lastLit <= size
    {
    }

    /** Start a new block. */
    method InitBlock()
      requires Separate()
      modifies this, t, lfc, dfc, bfc
      ensures Valid() && Tokens() == [] && lastLit == 0
    {
      Clear(lfc, L_CODES);
      Clear(dfc, D_CODES);
      Clear(bfc, BL_CODES);
      lfc[END_BLOCK] := 1;
      t.optLen, t.staticLen := 0, 0;
      lastLit, matches := 0, 0;
    }

    /** A distance takes two bytes, the low one first. */
    method Store(dist: nat, lc: Byte)
      requires Separate() && lastLit < size && dist <= 0x8000
      modifies this`lastLit, mem
      ensures Separate() && Tokens() == old(Tokens()) + [TokenAt(dist, lc)] && lastLit == old(lastLit) + 1
    {
      hide Word16;
      ghost var tokens := Tokens();
      var at := DistAt(size, lastLit);
      mem[at], mem[at + 1], mem[LitAt(size, lastLit)] := dist % 256, dist / 256, lc;
      assert Word16(dist % 256, dist / 256) == dist by { TwoBytes(dist); }
      forall i | 0 <= i < lastLit ensures TokenIn(mem[..], size, i) == tokens[i] {}
      lastLit := lastLit + 1;
      assert Tokens() == tokens + [TokenAt(dist, lc)];
    }

    /** Add a literal (`dist` zero) or a match; true if the block must be flushed. */
    method Tally(dist: nat, lc: Byte) returns (full: bool)
      requires Valid() && lastLit < size && dist <= 0x8000
      modifies this, lfc, dfc, mem
      ensures Valid() && Tokens() == old(Tokens()) + [TokenAt(dist, lc)] && (full <==> lastLit == size - 1)
    {
      hide Frequencies, LengthCode, DCode;
      ghost var tokens, fl, fd, tok := Tokens(), lfc[..], dfc[..], TokenAt(dist, lc);
      Store(dist, lc);
      if dist == 0 {
        lfc[lc] := lfc[lc] + 1;
      } else {
        matches := matches + 1;
        lfc[LengthCode(lc) + LITERALS + 1] := lfc[LengthCode(lc) + LITERALS + 1] + 1;
        dfc[DCode(dist - 1)] := dfc[DCode(dist - 1)] + 1;
        assert Bumped(fd, dfc[..], 30, DSym(tok));
      }
      assert Bumped(fl, lfc[..], 286, LSym(tok));
      TokenBumps(fl, fd, tokens, tok, lfc[..], dfc[..]);
      assert Tokens() == tokens + [tok];
      full := lastLit == size - 1;
    }

    /** The literal and distance trees are ready, and both sizes are those of the block data. */
    ghost predicate CodesReady(lMax: nat, dMax: nat)
      reads this, lfc, ldl, dfc, ddl, mem
    {
      && Separate() && 256 <= lMax < L_CODES && dMax < D_CODES
      && var c := Codes(ldl[..lMax + 1], ddl[..dMax + 1], MAX_BITS);
        && TreeCoded(lfc[..], c.llens) && TreeCoded(dfc[..], c.dlens) && c.Valid() && CanSendAll(c, Tokens())
        && Kraft(c.llens, MAX_BITS) == Pow2(MAX_BITS) && Kraft(c.dlens, MAX_BITS) == Pow2(MAX_BITS)
          && BuiltFor(c, Tokens())
    }

    method BuildCodes() returns (lMax: nat, dMax: nat)
      requires Valid()
      modifies t, t.heap, t.depth, t.blCount, lfc, ldl, dfc, ddl
      ensures CodesReady(lMax, dMax) && Tokens() == old(Tokens())
      ensures t.optLen == |BlockBits(Codes(ldl[..lMax + 1], ddl[..dMax + 1], MAX_BITS), Tokens())|
      ensures t.staticLen == |BlockBits(FixedCodes(MAX_BITS), Tokens())|
    {
      hide Kraft, Pow2, TreeCoded, LensBounded, Priced, Sum, FreqOf, BlockBits, StaticDesc.Valid, Frequencies,
           FixedCodes, CanSendAll, TokenOk, Chosen, BuiltFor, Buffered, Codes.Valid;
      ghost var tokens, fl, fd := Tokens(), lfc[..], dfc[..];
      FixedSize(tokens, fl, fd);
      DescsValid();
      lMax := Build(t, lfc, ldl, LDesc());
      dMax := Build(t, dfc, ddl, DDesc());
      assert Tokens() == tokens;
      CodesAreReady(tokens, fl, fd, lfc[..], ldl[..], lMax, dfc[..], ddl[..], dMax);
    }

    /** Count the symbols of the two coded trees. */
    method ScanTrees(lMax: nat, dMax: nat)
      requires CodesReady(lMax, dMax) && forall s :: 0 <= s < BL_CODES ==> bfc[s] == 0
      modifies ldl, ddl, bfc
      ensures CodesReady(lMax, dMax) && Tokens() == old(Tokens())
      ensures ldl[..lMax + 1] == old(ldl[..lMax + 1]) && ddl[..dMax + 1] == old(ddl[..dMax + 1])
      ensures ldl[lMax + 1] == GUARD && ddl[dMax + 1] == GUARD
      ensures forall x: nat :: x < BL_CODES ==>
        At(bfc[..], x) == Uses(TreeItems(ldl[..lMax + 1]) + TreeItems(ddl[..dMax + 1]), x)
    {
      hide BuiltFor, TreeItems, Uses, TreeCoded, Kraft, Pow2, CanSendAll;
      ghost var f0, li, di := bfc[..], TreeItems(ldl[..lMax + 1]), TreeItems(ddl[..dMax + 1]);
      ScanTree(ldl, lMax, bfc);
      assert ldl[..lMax + 1] == old(ldl[..lMax + 1]);
      ghost var f1 := bfc[..];
      ScanTree(ddl, dMax, bfc);
      assert ddl[..dMax + 1] == old(ddl[..dMax + 1]);
      TalliedConcat(f0, f1, bfc[..], li, di);
    }

    /** Build the tree for the code lengths and find how many of its lengths to send. */
    method BuildBlTree(lMax: nat, dMax: nat) returns (maxBlindex: nat)
      requires CodesReady(lMax, dMax) && forall s :: 0 <= s < BL_CODES ==> bfc[s] == 0
      modifies t, t.heap, t.depth, t.blCount, ldl, ddl, bfc, bdl
      ensures CodesReady(lMax, dMax) && Tokens() == old(Tokens())
      ensures ldl[..lMax + 1] == old(ldl[..lMax + 1]) && ddl[..dMax + 1] == old(ddl[..dMax + 1])
      ensures ldl[lMax + 1] == GUARD && ddl[dMax + 1] == GUARD && maxBlindex < BL_CODES
      ensures TreeCoded(bfc[..], bdl[..BL_CODES]) && (forall i :: 0 <= i < BL_CODES ==> bdl[i] < 8)
      ensures Coverable(bdl[..BL_CODES], TreeItems(ldl[..lMax + 1]) + TreeItems(ddl[..dMax + 1]))
      ensures Sendable(ldl[..lMax + 1], ddl[..dMax + 1], bdl[..BL_CODES], maxBlindex + 1, MAX_BITS)
      ensures t.optLen == old(t.optLen)
        + |HeaderBits(ldl[..lMax + 1], ddl[..dMax + 1], bdl[..BL_CODES], maxBlindex + 1)|
      ensures t.staticLen == old(t.staticLen)
    {
      hide BuiltFor, TreeItems, Uses, TreeCoded, Kraft, Pow2, CanSendToken, Sendable, HeaderBits, Priced, Coverable,
           StaticDesc.Valid, Sum, FreqOf, Buffered, CanSendAll, Frequencies, TreeDone;
      ScanTrees(lMax, dMax);
      ghost var f, llens, dlens := bfc[..], ldl[..lMax + 1], ddl[..dMax + 1];
      EndCoded(Codes(llens, dlens, MAX_BITS), Tokens());
      FewItems(llens, dlens, f);
      DescsValid();
      var bMax := Build(t, bfc, bdl, BlDesc());
      maxBlindex := LastBlIndex(bdl);
      HeaderReady(llens, dlens, f, bfc[..], bdl[..], bMax, maxBlindex);
      t.optLen := t.optLen + 3 * (maxBlindex + 1) + 5 + 5 + 4;
    }

    /** The trees of the block at hand. */
    ghost function Own(lMax: nat, dMax: nat, maxBlindex: nat): Trees
      reads ldl, ddl, bdl
    {
      if lMax < ldl.Length && dMax < ddl.Length && BL_CODES <= bdl.Length
      then Trees(Codes(ldl[..lMax + 1], ddl[..dMax + 1], MAX_BITS), bdl[..BL_CODES], maxBlindex + 1)
      else Trees(Codes([], [], 0), [], 0)
    }

    /** Send the block with the trees built for it. */
    method SendDynamic(w: BitWriter, lMax: nat, dMax: nat, maxBlindex: nat, last: bool, from: nat) returns (clean: bool)
      requires w.Valid() && TreesReady(lMax, dMax, maxBlindex) && from == w.base
      modifies w
      ensures w.Valid() && old(w.Sent()) <= w.Sent()
      ensures clean <==> OwnIntact(Own(lMax, dMax, maxBlindex), Tokens(), |old(w.Sent())| - 8 * from, size)
      ensures clean ==>
        w.Sent() == old(w.Sent()) + (ToBits(4 + Bit(last), 3) + OwnBits(Own(lMax, dMax, maxBlindex), Tokens()))
    {
      hide BuiltFor, TreeItems, TreeCoded, Kraft, HeaderBits, BlockBits, CanSendAll, ToBits, BytesToBits, Coverable,
           Rejected, CanSend, BitWriter.Sent, TokenOk, Unharmed, BitWriter.Valid, Pow2, Buffered;
      ghost var c := Codes(ldl[..lMax + 1], ddl[..dMax + 1], MAX_BITS);
      var lt, dt, bt := Tree(lfc, ldl, lMax + 1), Tree(dfc, ddl, dMax + 1), Tree(bfc, bdl, BL_CODES);
      assert Pow2(3) == 8 by { SmallPowers(); }
      w.SendBits(4 + (if last then 1 else 0), 3);
      SendAllTrees(w, lt, dt, bt, maxBlindex + 1);
      clean := CompressBlock(w, lt, dt, mem, size, lastLit, from, c);
    }

    /** Send the block with the static trees. */
    method SendStatic(w: BitWriter, slt: Tree, sdt: Tree, last: bool, from: nat) returns (clean: bool)
      requires w.Valid() && Separate() && forall i :: 0 <= i < lastLit ==> TokenOk(Tokens()[i])
      requires IsStatic(slt, sdt) && from == w.base
      modifies w
      ensures w.Valid() && old(w.Sent()) <= w.Sent()
      ensures clean <==> Unharmed(FixedCodes(MAX_BITS), Tokens(), |old(w.Sent())| - 8 * from + 3, size)
      ensures clean ==>
        w.Sent() == old(w.Sent()) + (ToBits(2 + Bit(last), 3) + BlockBits(FixedCodes(MAX_BITS), Tokens()))
    {
      hide TreeCoded, CanSendAll, ToBits, BytesToBits, BitWriter.Sent, TokensBits, CodeBits, StaticLens, Fives;
      ghost var c := Codes(StaticLens(288), Fives(30), MAX_BITS);
      FixedSendsAll(Tokens(), MAX_BITS);
      ThirtyEnough(Tokens(), MAX_BITS);
      ThirtyIntact(Tokens(), |w.Sent()| - 8 * from + 3, size);
      assert Pow2(3) == 8;
      w.SendBits(2 + (if last then 1 else 0), 3);
      clean := CompressBlock(w, slt, sdt, mem, size, lastLit, from, c);
    }

    /** The static trees are not among the arrays of this encoder. */
    ghost predicate Apart(slt: Tree, sdt: Tree)
      reads this
    {
      {slt.fc, slt.dl, sdt.fc, sdt.dl} !! {t.heap, t.depth, t.blCount, lfc, ldl, dfc, ddl, bfc, bdl}
    }

    /** All trees of the block are ready, and both predicted sizes are exact. */
    ghost predicate TreesReady(lMax: nat, dMax: nat, maxBlindex: nat)
      reads this, t, lfc, ldl, dfc, ddl, bfc, bdl, mem
    {
      && CodesReady(lMax, dMax) && 3 <= maxBlindex < BL_CODES && (forall i :: 0 <= i < lastLit ==> TokenOk(Tokens()[i]))
      && ldl[lMax + 1] == GUARD && ddl[dMax + 1] == GUARD
      && TreeCoded(bfc[..], bdl[..BL_CODES]) && (forall i :: 0 <= i < BL_CODES ==> bdl[i] < 8)
      && Coverable(bdl[..BL_CODES], TreeItems(ldl[..lMax + 1]) + TreeItems(ddl[..dMax + 1]))
      && t.optLen == |HeaderBits(ldl[..lMax + 1], ddl[..dMax + 1], bdl[..BL_CODES], maxBlindex + 1)|
                     + |BlockBits(Codes(ldl[..lMax + 1], ddl[..dMax + 1], MAX_BITS), Tokens())|
      && t.staticLen == |BlockBits(FixedCodes(MAX_BITS), Tokens())|
      && Sendable(ldl[..lMax + 1], ddl[..dMax + 1], bdl[..BL_CODES], maxBlindex + 1, MAX_BITS)
    }

    method BuildTrees() returns (lMax: nat, dMax: nat, maxBlindex: nat)
      requires Valid()
      modifies t, t.heap, t.depth, t.blCount, lfc, ldl, dfc, ddl, bfc, bdl
      ensures TreesReady(lMax, dMax, maxBlindex) && Tokens() == old(Tokens())
    {
      hide BuiltFor, Kraft, Pow2, TreeCoded, LensBounded, BlockBits, Frequencies, FixedCodes, CanSendAll, TokenOk,
           TreeItems, Coverable, HeaderBits, Sendable;
      lMax, dMax := BuildCodes();
      maxBlindex := BuildBlTree(lMax, dMax);
      FourSent(ldl[..lMax + 1], ddl[..dMax + 1], bdl[..BL_CODES], maxBlindex + 1);
    }

    /** Choose the encoding by the predicted sizes and send the block. */
    method SendBest(w: BitWriter, slt: Tree, sdt: Tree, buf: Buf, storedLen: nat, last: bool, fixed: bool,
                    lMax: nat, dMax: nat, maxBlindex: nat)
      returns (ghost bits: seq<bool>, ghost content: Content, ghost own: seq<Codes>, clean: bool)
      requires w.Valid() && w.base == |w.pending| && IsStatic(slt, sdt) && TreesReady(lMax, dMax, maxBlindex)
      requires buf.Bytes? ==> |buf.bytes| == storedLen < 0x1_0000
      modifies w
      ensures w.Valid() && w.Sent() == old(w.Sent()) + bits
      ensures clean ==> BlockSent(bits, last, content, |old(w.Sent())|, MAX_BITS) && Brings(bits, own, MAX_BITS)
      ensures content == Coded(Tokens()) || (buf.Bytes? && content == Stored(buf.bytes))
      ensures clean <==> Intact(Own(lMax, dMax, maxBlindex), content, own, Tokens(), old(w.biValid), size)
      ensures BestWay(content, own, buf, fixed, t.optLen, t.staticLen, Own(lMax, dMax, maxBlindex).c)
      ensures clean ==> Takes(bits, content, own, storedLen, t.optLen, t.staticLen)
    {
      hide BuiltFor, Kraft, Pow2, TreeCoded, BlockBits, FixedCodes, CanSendAll, TokenOk, TreeItems, Coverable,
           HeaderBits, Sendable, BlockSent, ToBits, StoredBits, BitWriter.Sent, Brings, Unharmed, OwnIntact;
      var optLenb := (t.optLen + 3 + 7) / 8;
      var staticLenb := (t.staticLen + 3 + 7) / 8;
      if staticLenb <= optLenb { optLenb := staticLenb; }
      ghost var s0, at := w.Sent(), |w.Sent()|;
      SentSize(w);
      var from := |w.pending|;
      if storedLen + 4 <= optLenb && buf.Bytes? {
        SendStored(w, buf.bytes, last);
        StoredSent(last, buf.bytes, at, MAX_BITS);
        content, own, clean := Stored(buf.bytes), [], true;
        BringsNone(last, 0, StoredBits(buf.bytes, at + 3), MAX_BITS);
        StoredSize(last, buf.bytes, at + 3);
      } else if fixed || staticLenb == optLenb {
        clean := SendStatic(w, slt, sdt, last, from);
        FixedValid(MAX_BITS);
        FixedSendsAll(Tokens(), MAX_BITS);
        FixedSent(last, Tokens(), at, MAX_BITS);
        content, own := Coded(Tokens()), [];
        BringsNone(last, 1, BlockBits(FixedCodes(MAX_BITS), Tokens()), MAX_BITS);
      } else {
        ghost var b := Own(lMax, dMax, maxBlindex);
        clean := SendDynamic(w, lMax, dMax, maxBlindex, last, from);
        FourSent(b.c.llens, b.c.dlens, b.blens, b.blcodes);
        DynamicSent(last, b.c, b.blens, b.blcodes, Tokens(), at);
        content, own := Coded(Tokens()), [b.c];
        BringsItsOwn(last, b.c, b.blens, b.blcodes, BlockBits(b.c, Tokens()));
      }
      bits := w.Sent()[at..];
      assert w.Sent() == s0 + bits;
    }

    /** Build the trees unless a stored block is forced, and send the block. */
    method SendBlock(w: BitWriter, slt: Tree, sdt: Tree, buf: Buf, storedLen: nat, last: bool, level: nat, fixed: bool)
      returns (ghost bits: seq<bool>, ghost content: Content, ghost own: seq<Codes>, ghost built: Trees, clean: bool)
      requires w.Valid() && w.base == |w.pending| && Valid() && IsStatic(slt, sdt) && Apart(slt, sdt)
      requires buf.Bytes? ==> |buf.bytes| == storedLen < 0x1_0000
      requires level == 0 ==> buf.Bytes?
      modifies w, t, t.heap, t.depth, t.blCount, lfc, ldl, dfc, ddl, bfc, bdl
      ensures w.Valid() && Separate() && IsStatic(slt, sdt) && w.Sent() == old(w.Sent()) + bits
      ensures clean ==> BlockSent(bits, last, content, |old(w.Sent())|, MAX_BITS) && Brings(bits, own, MAX_BITS)
      ensures content == Coded(old(Tokens())) || (buf.Bytes? && content == Stored(buf.bytes))
      ensures level == 0 ==> content.Stored? && own == []
      ensures level > 0 ==> TreesFor(built, old(Tokens()))
      ensures fixed || |old(Tokens())| < 1596 ==> !AnyRefused(own)
      ensures level > 0 && clean ==> |bits| <= 32 * |old(Tokens())| + 40
      ensures clean <==> Intact(built, content, own, old(Tokens()), old(w.biValid), size)
      ensures level > 0 ==> BestWay(content, own, buf, fixed, OwnSize(built, old(Tokens())),
        StaticSize(old(Tokens())), built.c)
    {
      hide BuiltFor, Kraft, Pow2, TreeCoded, BlockBits, FixedCodes, CanSendAll, TokenOk, TreeItems, Coverable,
           HeaderBits, Sendable, BlockSent, ToBits, StoredBits, BitWriter.Sent, Frequencies, Whole, StaticLens, Fives,
           Brings, BestWay, AnyRefused, Unharmed, OwnIntact, Takes;
      built := Trees(Codes([], [], 0), [], 0);
      if level > 0 {
        StaticBound(Tokens(), lfc[..], dfc[..]);
        var lMax, dMax, maxBlindex := BuildTrees();
        built := Own(lMax, dMax, maxBlindex);
        FourSent(built.c.llens, built.c.dlens, built.blens, built.blcodes);
        bits, content, own, clean := SendBest(w, slt, sdt, buf, storedLen, last, fixed, lMax, dMax, maxBlindex);
        if clean { BlockBound(Tokens(), bits, content, own, buf, fixed, storedLen, t.optLen, built.c); }
        OwnFit(built, Tokens(), content, own, buf, fixed, t.optLen, t.staticLen);
      } else {
        bits, content, own := ToBits(Bit(last), 3) + StoredBits(buf.bytes, |w.Sent()| + 3), Stored(buf.bytes), [];
        RefusedOne(built.c);
        StoredSent(last, buf.bytes, |w.Sent()|, MAX_BITS);
        BringsNone(last, 0, StoredBits(buf.bytes, |w.Sent()| + 3), MAX_BITS);
        SendStored(w, buf.bytes, last);
        clean := true;
      }
    }

    /** The static trees are not touched by starting a new block. */
    method NextBlock(slt: Tree, sdt: Tree)
      requires Separate() && IsStatic(slt, sdt) && Apart(slt, sdt)
      modifies this, t, lfc, dfc, bfc
      ensures Valid() && Tokens() == [] && lastLit == 0 && IsStatic(slt, sdt)
    {
      hide Separate, Tokens, Frequencies, TokenOk;
      InitBlock();
      assert unchanged(slt.fc, slt.dl, sdt.fc, sdt.dl);
    }

    /** Send the block as stored bytes, with the static trees or with its own, whichever is smallest, and
        start the next one, when nothing is pending. `built` are the trees for its tokens; `own` has their codes if they
        are sent. The block is not `clean` if output is put in the place of a token before that is sent. */
    method FlushBlock(w: BitWriter, slt: Tree, sdt: Tree, buf: Buf, storedLen: nat, last: bool, level: nat, fixed: bool)
      returns (ghost bits: seq<bool>, ghost content: Content, ghost own: seq<Codes>, ghost built: Trees, clean: bool)
      requires w.Valid() && w.base == |w.pending| && Valid() && IsStatic(slt, sdt) && Apart(slt, sdt)
      requires buf.Bytes? ==> |buf.bytes| == storedLen < 0x1_0000
      requires level == 0 ==> buf.Bytes?
      modifies this, w, t, t.heap, t.depth, t.blCount, lfc, ldl, dfc, ddl, bfc, bdl
      ensures w.Valid() && Valid() && Tokens() == [] && lastLit == 0 && IsStatic(slt, sdt)
      ensures clean ==> BlockSent(bits, last, content, |old(w.Sent())|, MAX_BITS) && Brings(bits, own, MAX_BITS)
      ensures content == Coded(old(Tokens())) || (buf.Bytes? && content == Stored(buf.bytes))
      ensures var end := old(w.Sent()) + bits; w.Sent() == end + (if last then ToBits(0, Padding(|end|)) else [])
      ensures last ==> w.biValid == 0
      ensures level == 0 ==> content.Stored? && own == []
      ensures level > 0 ==> TreesFor(built, old(Tokens()))
      ensures fixed || |old(Tokens())| < 1596 ==> !AnyRefused(own)
      ensures level > 0 && clean ==> |bits| <= 32 * |old(Tokens())| + 40
      ensures clean <==> Intact(built, content, own, old(Tokens()), old(w.biValid), size)
      ensures level > 0 ==> BestWay(content, own, buf, fixed, OwnSize(built, old(Tokens())),
        StaticSize(old(Tokens())), built.c)
    {
      hide BlockSent, ToBits, BitWriter.Sent, BitWriter.Valid, Frequencies, TokenOk, IsStatic, Separate, Tokens, Brings,
           BestWay, TreesFor, OwnSize, StaticSize, Whole, AnyRefused, Intact, Padding;
      bits, content, own, built, clean := SendBlock(w, slt, sdt, buf, storedLen, last, level, fixed);
      NextBlock(slt, sdt);
      if last {
        PadOut(w);
      }
    }
  }

  /** The three trees of a block: its two codes, and the lengths of the code that their lengths are sent with. */
  datatype Trees = Trees(c: Codes, blens: seq<nat>, blcodes: nat)
  {
    predicate Shaped() { |c.llens| >= 257 && |c.dlens| >= 1 && 4 <= blcodes <= 19 == |blens| }
  }

  /** These codes have the lengths that were found for the frequencies of the tokens. */
  ghost predicate BuiltFor(c: Codes, tokens: seq<Token>)
  {
    exists fl, fd {:trigger Frequencies(fl, fd, tokens)} ::
      Frequencies(fl, fd, tokens) && Chosen(fl, c.llens, LDesc()) && Chosen(fd, c.dlens, DDesc())
  }

  /** The trees of a block with these tokens: two complete codes, which can be sent. */
  ghost predicate TreesFor(b: Trees, tokens: seq<Token>)
  {
    && b.c.m == MAX_BITS && Sendable(b.c.llens, b.c.dlens, b.blens, b.blcodes, MAX_BITS) && BuiltFor(b.c, tokens)
    && Kraft(b.c.llens, MAX_BITS) == Pow2(MAX_BITS) && Kraft(b.c.dlens, MAX_BITS) == Pow2(MAX_BITS)
  }

  /** The block with its own trees, after its type. */
  ghost function OwnBits(b: Trees, tokens: seq<Token>): seq<bool>
  {
    (if b.Shaped() then HeaderBits(b.c.llens, b.c.dlens, b.blens, b.blcodes) else []) + BlockBits(b.c, tokens)
  }

  ghost function OwnSize(b: Trees, tokens: seq<Token>): nat { |OwnBits(b, tokens)| }

  /** Bits of the block with the static trees. */
  ghost function StaticSize(tokens: seq<Token>): nat { |BlockBits(FixedCodes(MAX_BITS), tokens)| }

  /** The way of sending a block that takes the fewest bytes; stored bytes, then the static trees, if that makes no
      difference. */
  ghost predicate BestWay(content: Content, own: seq<Codes>, buf: Buf, fixed: bool, opt: int, stat: int, c: Codes)
  {
    && (content.Stored? <==>
      buf.Bytes? && |buf.bytes| + 4 <= Whole(3 + opt) && |buf.bytes| + 4 <= Whole(3 + stat))
    && own == (if content.Coded? && !fixed && Whole(3 + opt) < Whole(3 + stat) then [c] else [])
  }

  /** The bits that way takes. */
  ghost predicate Takes(bits: seq<bool>, content: Content, own: seq<Codes>, storedLen: nat, opt: int, stat: int)
  {
    && (content.Coded? ==> |bits| == 3 + if own == [] then stat else opt)
    && (content.Stored? ==> |bits| <= 42 + 8 * storedLen)
  }

  /** With its own trees, no token of the block is overwritten before it is sent, if `held` bits are held at first. */
  ghost predicate OwnIntact(b: Trees, tokens: seq<Token>, held: int, size: nat)
  {
    b.Shaped() &&
    Unharmed(b.c, tokens, held + 3 + |HeaderBits(b.c.llens, b.c.dlens, b.blens, b.blcodes)|, size)
  }

  /** The block gets through, the way it is sent. */
  ghost predicate Intact(b: Trees, content: Content, own: seq<Codes>, tokens: seq<Token>, held: int, size: nat)
  {
    || content.Stored?
    || if own == [] then Unharmed(FixedCodes(MAX_BITS), tokens, held + 3, size) else OwnIntact(b, tokens, held, size)
  }

  /** A block as it was sent: its tokens and the bytes they stand for, if these were at hand; what was sent, the codes
      sent with it, the trees built for the tokens, and how many bits were held before. */
  datatype Sending = Sending(tokens: seq<Token>, buf: Buf, content: Content, own: seq<Codes>, built: Trees, held: nat)

  /** The way the block was sent is the one that takes the fewest bytes. */
  ghost predicate WellSent(x: Sending, fixed: bool)
  {
    && x.held < 8 && (forall i :: 0 <= i < |x.tokens| ==> TokenOk(x.tokens[i])) && TreesFor(x.built, x.tokens)
    && BestWay(x.content, x.own, x.buf, fixed, OwnSize(x.built, x.tokens), StaticSize(x.tokens), x.built.c)
  }

  /** No token of the block was overwritten before it was sent. */
  ghost predicate GotThrough(x: Sending, size: nat)
  {
    Intact(x.built, x.content, x.own, x.tokens, x.held, size)
  }

  lemma ThirtyIntact(tokens: seq<Token>, head: int, size: nat)
    requires forall i :: 0 <= i < |tokens| ==> TokenOk(tokens[i])
    ensures Unharmed(Codes(StaticLens(288), Fives(30), MAX_BITS), tokens, head, size) <==>
      Unharmed(FixedCodes(MAX_BITS), tokens, head, size)
  {
    hide TokensBits, StaticLens, Fives, FixedCodes, TokenOk;
    var c := Codes(StaticLens(288), Fives(30), MAX_BITS);
    forall i | 0 <= i < |tokens|
      ensures Early(c, tokens, head, size, i) <==> Early(FixedCodes(MAX_BITS), tokens, head, size, i)
    {
      ThirtyEnough(tokens[..i], MAX_BITS);
    }
  }

  lemma TwoBytes(d: nat)
    ensures Word16(d % 256, d / 256) == d
  {
  }

  lemma BillBound(f: seq<nat>, l: seq<nat>, desc: StaticDesc, x: nat, most: nat)
    requires At(l, x) + desc.ExtraBits(x) <= most
    ensures Bill(f, l, desc)(x) <= most * FreqOf(f)(x)
  {
    hide StaticDesc.ExtraBits, At;
    MulMono(At(l, x) + desc.ExtraBits(x), most, At(f, x));
  }

  /** If no symbol takes more than `most` bits, all of them take at most as many times the total frequency. */
  lemma {:induction false} PricedBound(f: seq<nat>, l: seq<nat>, desc: StaticDesc, n: nat, most: nat)
    requires forall x: nat :: x < n ==> At(l, x) + desc.ExtraBits(x) <= most
    ensures Sum(All(n), Bill(f, l, desc)) <= most * Sum(All(n), FreqOf(f))
  {
    hide StaticDesc.ExtraBits, Bill, FreqOf, Sum, At;
    if n == 0 {
      NoSum(Bill(f, l, desc));
      NoSum(FreqOf(f));
    } else {
      var x := n - 1;
      PricedBound(f, l, desc, x, most);
      SumAdd(All(x), Bill(f, l, desc), x);
      SumAdd(All(x), FreqOf(f), x);
      BillBound(f, l, desc, x, most);
      Distrib(FreqOf(f)(x), Sum(All(x), FreqOf(f)), most);
    }
  }

  lemma NoSum(g: nat -> int)
    ensures Sum({}, g) == 0
  {
  }

  /** With the static trees a token takes at most 32 bits. */
  lemma StaticBound(tokens: seq<Token>, fl: seq<nat>, fd: seq<nat>)
    requires Frequencies(fl, fd, tokens) && forall i :: 0 <= i < |tokens| ==> TokenOk(tokens[i])
    ensures StaticSize(tokens) <= 32 * |tokens| + 14
  {
    hide Sum, FreqOf, All, Frequencies, TokenOk, BlockBits, FixedCodes;
    FixedSize(tokens, fl, fd);
    LongestStatic();
    PricedBound(fl, LDesc().stree, LDesc(), 286, 14);
    PricedBound(fd, DDesc().stree, DDesc(), 30, 18);
    MulMono(Sum(All(30), FreqOf(fd)), |tokens|, 18);
  }

  lemma LongestStatic()
    ensures forall x: nat :: x < 286 ==> At(LDesc().stree, x) + LDesc().ExtraBits(x) <= 14
    ensures forall x: nat :: x < 30 ==> At(DDesc().stree, x) + DDesc().ExtraBits(x) <= 18
  {
    assert forall i :: 0 <= i < |EXTRA_LBITS| ==> EXTRA_LBITS[i] <= 5;
    assert forall i :: 0 <= i < |EXTRA_DBITS| ==> EXTRA_DBITS[i] <= 13;
  }

  /** So a block takes little more, whichever way it is sent. */
  lemma BlockBound(tokens: seq<Token>, bits: seq<bool>, content: Content, own: seq<Codes>, buf: Buf, fixed: bool,
                   storedLen: nat, opt: int, c: Codes)
    requires buf.Bytes? ==> |buf.bytes| == storedLen
    requires BestWay(content, own, buf, fixed, opt, StaticSize(tokens), c)
      && Takes(bits, content, own, storedLen, opt, StaticSize(tokens)) && StaticSize(tokens) <= 32 * |tokens| + 14
    ensures |bits| <= 32 * |tokens| + 40
  {
    hide StaticSize;
  }

  datatype Buf = Null | Bytes(bytes: seq<Byte>)

  /** Bits in whole bytes. */
  function Whole(n: int): int { (n + 7) / 8 }

  /** The two static trees. */
  ghost predicate IsStatic(slt: Tree, sdt: Tree)
    reads slt.fc, slt.dl, sdt.fc, sdt.dl
  {
    && slt.codes == 288 == slt.dl.Length && slt.Lens() == StaticLens(288) && slt.Valid()
    && sdt.codes == 30 == sdt.dl.Length && sdt.Lens() == Fives(30) && sdt.Valid()
  }

  /** Put out bytes as they are. */
  method PutBytes(w: BitWriter, buf: seq<Byte>)
    modifies w
    ensures w.pending == old(w.pending) + buf && w.biBuf == old(w.biBuf) && w.biValid == old(w.biValid)
    ensures w.base == |w.pending|
  {
    w.base := |w.pending|;
    var i := 0;
    while i < |buf|
      invariant 0 <= i <= |buf| && w.biBuf == old(w.biBuf) && w.biValid == old(w.biValid)
        && w.pending == old(w.pending) + buf[..i] && w.base == |w.pending|
    {
      w.PutByte(buf[i]);
      i := i + 1;
    }
  }

  /** _tr_align: an empty block with the static trees, to give the decoder enough to work on. */
  method SendAlign(w: BitWriter, slt: Tree, sdt: Tree) returns (ghost block: seq<bool>)
    requires w.Valid() && IsStatic(slt, sdt)
    modifies w
    ensures w.Valid() && w.biValid < 8 && w.Sent() == old(w.Sent()) + block && |block| == 10 && w.base == |w.pending|
    ensures BlockSent(block, false, Coded([]), |old(w.Sent())|, MAX_BITS) && Brings(block, [], MAX_BITS)
  {
    hide Brings, TreeCoded, ToBits, BitWriter.Sent, CodeBits, StaticLens, Fives, BlockSent, Pow2;
    block := EmptyStatic(|w.Sent()|);
    assert Pow2(3) == 8 by { SmallPowers(); }
    ghost var bits := w.Sent();
    w.SendBits(2, 3);
    SendCode(w, slt, END_BLOCK);
    assert w.Sent() == bits + block;
    w.Flush();
  }

  /** An empty block with the static trees: its type and the end-of-block code. */
  lemma EmptyStatic(at: nat) returns (block: seq<bool>)
    ensures block == ToBits(2, 3) + SymbolBits(StaticLens(288), END_BLOCK) && HasCode(StaticLens(288), END_BLOCK)
    ensures BlockSent(block, false, Coded([]), at, MAX_BITS) && Brings(block, [], MAX_BITS)
  {
    hide BlockSent, Brings, ToBits, StaticLens, SymbolBits, CodeBits, Fives;
    BringsNone(false, 1, SymbolBits(StaticLens(288), END_BLOCK), MAX_BITS);
    FixedValid(MAX_BITS);
    FixedSendsAll([], MAX_BITS);
    FixedSent(false, [], at, MAX_BITS);
    block := ToBits(2, 3) + SymbolBits(StaticLens(288), END_BLOCK);
    assert TokensBits(FixedCodes(MAX_BITS), []) + SymbolBits(StaticLens(288), END_BLOCK) ==
      SymbolBits(StaticLens(288), END_BLOCK);
  }

  /** Send a stored block. */
  method SendStored(w: BitWriter, buf: seq<Byte>, last: bool)
    requires w.Valid() && |buf| < 0x1_0000
    modifies w
    ensures w.Valid() && w.Sent() == old(w.Sent()) + (ToBits(Bit(last), 3) + StoredBits(buf, |old(w.Sent())| + 3))
    ensures w.biValid == 0 && w.base == |w.pending|
  {
    hide ToBits, Pow2, BytesToBits, StoredBits;
    ghost var s0 := w.Sent();
    StoredStart(w, last);
    ghost var s1 := w.Sent();
    StoredBody(w, buf);
    StoredParts(s0, s1, buf, last);
  }

  /** The type of a stored block, and zeros up to a byte boundary. */
  method StoredStart(w: BitWriter, last: bool)
    requires w.Valid()
    modifies w
    ensures w.Valid() && w.biValid == 0
      && w.Sent() == old(w.Sent()) + ToBits(Bit(last), 3) + ToBits(0, Padding(|old(w.Sent())| + 3))
  {
    hide ToBits, Pow2, BytesToBits;
    assert 2 <= Pow2(3) by { SmallPowers(); }
    w.SendBits(if last then 1 else 0, 3);
    ghost var s1 := w.Sent();
    w.Windup();
    PadUnique(|s1|, |w.Sent()| - |s1|, Padding(|s1|));
  }

  lemma StoredSize(last: bool, bytes: seq<Byte>, at: nat)
    requires |bytes| < 0x1_0000
    ensures |ToBits(Bit(last), 3) + StoredBits(bytes, at)| <= 42 + 8 * |bytes|
  {
    hide ToBits, BytesToBits;
  }

  lemma PadUnique(a: nat, n: nat, p: nat)
    requires n < 8 && p < 8 && (a + n) % 8 == 0 && (a + p) % 8 == 0
    ensures n == p
  {
  }

  /** The length twice, and the bytes. */
  method StoredBody(w: BitWriter, buf: seq<Byte>)
    requires w.Valid() && w.biValid == 0 && |buf| < 0x1_0000
    modifies w
    ensures w.Valid() && w.Sent() == old(w.Sent()) + ToBits(|buf|, 16) + ToBits(0xffff - |buf|, 16) + BytesToBits(buf)
    ensures w.biValid == 0 && w.base == |w.pending|
  {
    hide ToBits, Pow2, BytesToBits;
    NoBits();
    ghost var s1 := w.Sent();
    w.PutShort(|buf|);
    w.PutShort(0xffff - |buf|);
    ghost var p := w.pending;
    PutBytes(w, buf);
    BytesConcat(p, buf);
    assert w.Held() == [];
  }

  lemma StoredParts(s0: seq<bool>, s1: seq<bool>, buf: seq<Byte>, last: bool)
    requires |buf| < 0x1_0000 && s1 == s0 + ToBits(Bit(last), 3) + ToBits(0, Padding(|s0| + 3))
    ensures s1 + ToBits(|buf|, 16) + ToBits(0xffff - |buf|, 16) + BytesToBits(buf) ==
      s0 + (ToBits(Bit(last), 3) + StoredBits(buf, |s0| + 3))
  {
    hide ToBits, BytesToBits;
    StoredAssoc(s0, ToBits(Bit(last), 3), ToBits(0, Padding(|s0| + 3)), ToBits(|buf|, 16), ToBits(0xffff - |buf|, 16),
      BytesToBits(buf));
  }

  lemma StoredAssoc(s: seq<bool>, a: seq<bool>, b: seq<bool>, c: seq<bool>, d: seq<bool>, e: seq<bool>)
    ensures s + a + b + c + d + e == s + (a + (b + (c + (d + e))))
  {
  }

  /** The lengths are few enough for 16-bit frequencies. */
  lemma FewItems(llens: seq<nat>, dlens: seq<nat>, f: seq<nat>)
    requires 257 <= |llens| <= 286 && |dlens| <= 30 && llens[256] > 0
    requires (forall i :: 0 <= i < |llens| ==> llens[i] < 16) && forall i :: 0 <= i < |dlens| ==> dlens[i] < 16
    requires forall x: nat :: x < 19 ==> At(f, x) == Uses(TreeItems(llens) + TreeItems(dlens), x)
    ensures Sum(All(19), FreqOf(f)) <= 0xfffd
  {
    hide TreeItems, Sum, FreqOf, Uses;
    var items := TreeItems(llens) + TreeItems(dlens);
    var k := SomeLengthSent(llens, dlens, 256);
    TotalUses(items, f);
  }

  lemma {:induction false} TotalUses(items: seq<Item>, f: seq<nat>)
    requires forall x: nat :: x < 19 ==> At(f, x) == Uses(items, x)
    ensures Sum(All(19), FreqOf(f)) <= |items|
    decreases items
  {
    hide Sum, FreqOf;
    BlExtra(0);
    if items == [] {
      NothingPriced(f, [], BlDesc());
    } else {
      var n := |items| - 1;
      if items[n].sym < 19 {
        var f' := Unbump(f, 19, items[n].sym);
        BumpedPriced(f', f, [], BlDesc(), items[n].sym);
        TotalUses(items[..n], f');
      } else {
        TotalUses(items[..n], f);
      }
    }
  }

  /** Two complete codes, the frequencies `f` of the items that stand for their lengths, and the tree built for them. */
  ghost predicate BlTreeDone(llens: seq<nat>, dlens: seq<nat>, f: seq<nat>, bfc: seq<nat>, bdl: seq<nat>, bMax: nat,
                             maxBlindex: nat)
  {
    && 257 <= |llens| <= 286 && 1 <= |dlens| <= 30 && llens[256] > 0 && |bfc| >= 19
    && (forall i :: 0 <= i < |llens| ==> llens[i] < 16) && (forall i :: 0 <= i < |dlens| ==> dlens[i] < 16)
    && Kraft(llens, MAX_BITS) == Pow2(MAX_BITS) && Kraft(dlens, MAX_BITS) == Pow2(MAX_BITS)
    && (forall x: nat :: x < 19 ==> At(f, x) == Uses(TreeItems(llens) + TreeItems(dlens), x))
    && TreeDone(f, bfc, bdl, bMax, BlDesc()) && 19 <= |bdl| && LastSent(bdl, maxBlindex)
  }

  /** The length at place `maxBlindex` of the order is the last that has to be sent. */
  ghost predicate LastSent(bdl: seq<nat>, maxBlindex: nat)
    requires 19 <= |bdl|
  {
    && 2 <= maxBlindex < 19 == |BL_ORDER|
    && (forall i :: maxBlindex < i < 19 ==> BL_ORDER[i] < 19 && bdl[BL_ORDER[i]] == 0)
    && (maxBlindex == 2 <==> forall s :: 0 <= s < 16 ==> bdl[s] == 0)
  }

  /** There is a code for every item. */
  lemma BlTreeCovers(llens: seq<nat>, dlens: seq<nat>, f: seq<nat>, bfc: seq<nat>, bdl: seq<nat>, bMax: nat,
                     maxBlindex: nat)
    requires BlTreeDone(llens, dlens, f, bfc, bdl, bMax, maxBlindex)
    ensures TreeCoded(bfc, bdl[..19]) && LensBounded(bdl[..19], 7) && Kraft(bdl[..19], MAX_BITS) == Pow2(MAX_BITS)
    ensures Coverable(bdl[..19], TreeItems(llens) + TreeItems(dlens))
      && CanSend(bdl[..19], TreeItems(llens) + TreeItems(dlens)) && maxBlindex >= 3
  {
    hide TreeItems, Uses, TreeCoded, Kraft, Pow2, Coverable, CanSend, Chosen;
    var items, blens := TreeItems(llens) + TreeItems(dlens), bdl[..19];
    BlExtra(0);
    WholeTree(f, bfc, bdl, bMax, BlDesc());
    forall x: nat | x < 19 && At(f, x) > 0 ensures blens[x] > 0 { assert At(bdl, x) > 0; }
    ItemsAreOk(llens, dlens);
    ItemsCovered(blens, items, f);
    var k := SomeLengthSent(llens, dlens, 256);
    OccursItem(items, k);
    assert blens[items[k].sym] > 0;
  }

  /** The lengths that are not sent are zero. */
  lemma RestUnsent(bdl: seq<nat>, maxBlindex: nat)
    requires 19 <= |bdl| && LastSent(bdl, maxBlindex)
    ensures |BL_RANK| == 19 && forall s :: 0 <= s < 19 && BL_RANK[s] >= maxBlindex + 1 ==> bdl[s] == 0
  {
    OrderIsPermutation();
    forall s | 0 <= s < 19 && BL_RANK[s] >= maxBlindex + 1 ensures bdl[s] == 0 { assert BL_ORDER[BL_RANK[s]] == s; }
  }

  /** The header can be sent, can be read back, and takes what was predicted. */
  lemma HeaderReady(llens: seq<nat>, dlens: seq<nat>, f: seq<nat>, bfc: seq<nat>, bdl: seq<nat>, bMax: nat,
                    maxBlindex: nat)
    requires BlTreeDone(llens, dlens, f, bfc, bdl, bMax, maxBlindex)
    ensures TreeCoded(bfc, bdl[..19]) && (forall i :: 0 <= i < 19 ==> bdl[i] < 8)
    ensures Coverable(bdl[..19], TreeItems(llens) + TreeItems(dlens))
    ensures maxBlindex >= 3
    ensures |HeaderBits(llens, dlens, bdl[..19], maxBlindex + 1)| ==
      3 * (maxBlindex + 1) + 5 + 5 + 4 + Priced(f, bdl[..bMax + 1], BlDesc())
    ensures Sendable(llens, dlens, bdl[..19], maxBlindex + 1, MAX_BITS)
  {
    hide TreeItems, Uses, TreeCoded, Kraft, Pow2, HeaderBits, Priced, Coverable, Rejected, CanSend, Chosen;
    var blens := bdl[..19];
    BlTreeCovers(llens, dlens, f, bfc, bdl, bMax, maxBlindex);
    assert forall i :: 0 <= i < 19 ==> blens[i] < 8 && blens[i] == bdl[i];
    RestUnsent(bdl, maxBlindex);
    CompleteNotRejected(LENS, llens);
    CompleteNotRejected(DISTS, dlens);
    CompleteNotRejected(CODES, blens);
    HeaderSize(llens, dlens, blens, maxBlindex + 1, f);
    BlExtra(0);
    PricedPrefix(f, bdl, bMax + 1, BlDesc());
    PricedPrefix(f, bdl, 19, BlDesc());
  }

  lemma EndCoded(c: Codes, tokens: seq<Token>)
    requires CanSendAll(c, tokens)
    ensures HasCode(c.llens, END_BLOCK)
  {
  }

  lemma FourSent(llens: seq<nat>, dlens: seq<nat>, blens: seq<nat>, blcodes: nat)
    requires Sendable(llens, dlens, blens, blcodes, MAX_BITS)
    ensures Trees(Codes(llens, dlens, MAX_BITS), blens, blcodes).Shaped()
  {
  }

  lemma ItemsAreOk(llens: seq<nat>, dlens: seq<nat>)
    requires (forall i :: 0 <= i < |llens| ==> llens[i] < 16) && forall i :: 0 <= i < |dlens| ==> dlens[i] < 16
    ensures AllOk(TreeItems(llens) + TreeItems(dlens))
  {
    hide Runs;
    RunsOk(llens, 0, -1, 0);
    RunsOk(dlens, 0, -1, 0);
  }

  /** The block data with the static trees. */
  lemma FixedSize(tokens: seq<Token>, fl: seq<nat>, fd: seq<nat>)
    requires Frequencies(fl, fd, tokens) && forall i :: 0 <= i < |tokens| ==> TokenOk(tokens[i])
    ensures |BlockBits(FixedCodes(MAX_BITS), tokens)| ==
      Priced(fl, LDesc().stree, LDesc()) + Priced(fd, DDesc().stree, DDesc())
    ensures Sum(All(286), FreqOf(fl)) == |tokens| + 1 && Sum(All(30), FreqOf(fd)) <= |tokens|
  {
    hide Priced, Sum, FreqOf, BlockBits, Frequencies, CanSendAll;
    FixedSendsAll(tokens, MAX_BITS);
    TokensSize(FixedCodes(MAX_BITS), tokens, fl, fd);
    SamePriced(fl, fl, StaticLens(288), LDesc().stree, LDesc());
    SamePriced(fd, fd, Fives(32), DDesc().stree, DDesc());
  }

  lemma CodesAreReady(tokens: seq<Token>, fl: seq<nat>, fd: seq<nat>, lfc: seq<nat>, ldl: seq<nat>, lMax: nat,
                      dfc: seq<nat>, ddl: seq<nat>, dMax: nat)
    requires Frequencies(fl, fd, tokens) && forall i :: 0 <= i < |tokens| ==> TokenOk(tokens[i])
    requires TreeDone(fl, lfc, ldl, lMax, LDesc()) && TreeDone(fd, dfc, ddl, dMax, DDesc())
    ensures lMax >= 256
    ensures var c := Codes(ldl[..lMax + 1], ddl[..dMax + 1], MAX_BITS);
      && c.Valid() && CanSendAll(c, tokens) && BuiltFor(c, tokens)
      && |BlockBits(c, tokens)| == Priced(fl, c.llens, LDesc()) + Priced(fd, c.dlens, DDesc())
  {
    hide Kraft, Pow2, TreeCoded, Priced, BlockBits, CanSendAll, TokenOk, Chosen;
    var c := Codes(ldl[..lMax + 1], ddl[..dMax + 1], MAX_BITS);
    DescSizes();
    assert At(fl, END_BLOCK) > 0;
    forall x: nat | x < 286 && At(fl, x) > 0 ensures HasCode(c.llens, x) { assert At(ldl, x) > 0; }
    forall x: nat | x < 30 && At(fd, x) > 0 ensures HasCode(c.dlens, x) { assert At(ddl, x) > 0; }
    TokensCovered(c, tokens, fl, fd);
    TokensSize(c, tokens, fl, fd);
  }

  method Clear(a: array<nat>, n: nat)
    requires n <= a.Length
    modifies a
    ensures forall i :: 0 <= i < n ==> a[i] == 0
  {
    for i := 0 to n
      invariant forall j :: 0 <= j < i ==> a[j] == 0
    {
      a[i] := 0;
    }
  }

  /** Collect the tokens of a block. */
  method Collect(e: Encoder, ts: seq<Token>)
    requires e.Valid() && e.lastLit == 0 && |ts| <= e.size && forall i :: 0 <= i < |ts| ==> TokenOk(ts[i])
    modifies e, e.lfc, e.dfc, e.mem
    ensures e.Valid() && e.Tokens() == ts && e.lastLit == |ts|
  {
    hide Encoder.Valid, Encoder.Tokens, Encoder.Separate;
    e.TokenCount();
    var i := 0;
    while i < |ts|
      invariant 0 <= i <= |ts| && e.Valid() && e.Tokens() == ts[..i] && e.lastLit == i
    {
      var t := ts[i];
      var full;
      match t {
        case Literal(b) => full := e.Tally(0, b);
        case Match(len, dist) => full := e.Tally(dist, len - 3);
      }
      assert ts[..i + 1] == ts[..i] + [t];
      i := i + 1;
      e.TokenCount();
    }
    assert ts[..i] == ts;
  }

  /** A block of fewer than 1596 tokens has no codes that inflate refuses. */
  lemma FewTokensFit(b: Trees, tokens: seq<Token>)
    requires TreesFor(b, tokens) && |tokens| < 1596 && forall i :: 0 <= i < |tokens| ==> TokenOk(tokens[i])
    ensures !Refused(b.c.llens, b.c.dlens, MAX_BITS)
  {
    hide Kraft, Pow2, Chosen, Sum, FreqOf, All, Refused, Frequencies, TokenOk, CanSend, TreeItems;
    var fl, fd :| Frequencies(fl, fd, tokens) && Chosen(fl, b.c.llens, LDesc()) && Chosen(fd, b.c.dlens, DDesc());
    FixedSize(tokens, fl, fd);
    DescSizes();
    FewAreShort(fl, b.c.llens, LDesc());
    FewAreShort(fd, b.c.dlens, DDesc());
    InflateTable.NotRefused(b.c.llens, b.c.dlens);
  }

  /** So what such a block brings with it is not refused. */
  lemma OwnFit(b: Trees, tokens: seq<Token>, content: Content, own: seq<Codes>, buf: Buf, fixed: bool, opt: int,
               stat: int)
    requires TreesFor(b, tokens) && (forall i :: 0 <= i < |tokens| ==> TokenOk(tokens[i]))
    requires BestWay(content, own, buf, fixed, opt, stat, b.c)
    ensures fixed || |tokens| < 1596 ==> !AnyRefused(own)
  {
    hide TreesFor, AnyRefused, Refused, TokenOk, Whole;
    RefusedOne(b.c);
    if |tokens| < 1596 {
      FewTokensFit(b, tokens);
      assert b.c.m == MAX_BITS by { ForMax(b, tokens); }
    }
  }

  lemma ForMax(b: Trees, tokens: seq<Token>)
    requires TreesFor(b, tokens)
    ensures b.c.m == MAX_BITS
  {
  }
}
