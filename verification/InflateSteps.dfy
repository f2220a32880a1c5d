/** inflate.c: what single steps of the decoder do to the bits ahead, apart from its state. */
module InflateSteps {
  import opened Bits
  import opened BitWriter
  import opened BitReader
  import opened Canonical
  import opened CodeLengths
  import opened DecodeTable
  import opened InflateTable
  import opened Header
  import opened SubTables
  import opened Tokens
  import opened Blocks
  import opened BlockSize
  import opened Stream
  import opened Inflated
  import opened SymbolReader
  import opened TokenSteps
  import StaticTrees

  /** The bits hold one whole symbol of the bit length code with its extra bits. */
  ghost predicate OneItem(blens: seq<nat>, m: nat, bs: seq<bool>)
  {
    match NextSymbol(blens, m, bs)
    case Sym(s) => blens[s] + ExtraBits(s) <= |bs|
    case Invalid => true
    case NeedMore => false
  }

  function RankOf(s: nat): nat { if s < 19 then BL_RANK[s] else 19 }

  function OrderOf(k: nat): nat { if k < 19 then BL_ORDER[k] else 0 }

  lemma Ranks()
    ensures forall s :: 0 <= s < 19 ==> RankOf(s) < 19 && OrderOf(RankOf(s)) == s
    ensures forall k :: 0 <= k < 19 ==> OrderOf(k) < 19 && RankOf(OrderOf(k)) == k
  {
    OrderIsPermutation();
  }

  lemma OrderTaken(bs: seq<bool>, future: seq<bool>, blens: seq<nat>, have: nat, ncode: nat)
    requires have < ncode <= 19 == |blens| && |bs| >= 3 && OrderOf(have) < 19
    ensures ReadOrder(bs + future, blens, have, ncode)
         == ReadOrder(bs[3..] + future, blens[OrderOf(have) := Value(bs[..3])], have + 1, ncode)
  {
    hide Value;
    FieldAhead(bs, future, 3);
  }

  /** The tables of the two codes, one after the other in `codes`. */
  method BuildPair(llens: seq<nat>, dlens: seq<nat>, codes: array<Entry>, m: nat)
    returns (ret: int, lt: seq<Entry>, lbits: nat, dt: seq<Entry>, dbits: nat)
    requires m == MAXBITS && |llens| <= 286 && |dlens| <= 30 && LensBounded(llens, m) && LensBounded(dlens, m)
    requires codes.Length == ENOUGH_LENS + ENOUGH_DISTS
    modifies codes
    ensures ret == 0 ==> TableFor(LENS, llens, m, lt, lbits) && TableFor(DISTS, dlens, m, dt, dbits)
    ensures ret == 0 <==> !Rejected(LENS, llens, m) && !Rejected(DISTS, dlens, m) && !Refused(llens, dlens, m)
  {
    hide TableFor, Rejected, Pow2, LensBounded, TooBig;
    lt, dt, dbits := [], [], 0;
    var used;
    ret, lbits, used := Build(LENS, llens, codes, 0, 9, m);
    if ret != 0 { return; }
    lt := codes[0..used];
    var used2;
    ret, dbits, used2 := Build(DISTS, dlens, codes, used, 6, m);
    if ret != 0 { return; }
    dt := codes[used..used + used2];
  }

  lemma TreesFrom(last: bool, hist: seq<Byte>, blens: seq<nat>, m: nat, bs: seq<bool>, lens: seq<nat>, nlen: nat,
                  ndist: nat, w: nat)
    requires nlen + ndist <= |lens| && nlen >= 257
    ensures WithTrees(last, hist, FromLens(ReadLens(blens, m, bs, lens[..nlen + ndist], nlen + ndist), m, nlen, ndist),
      m, w)
      == if lens[256] == 0 || Rejected(LENS, lens[..nlen], m) || Rejected(DISTS, lens[nlen..nlen + ndist], m)
            || Refused(lens[..nlen], lens[nlen..nlen + ndist], m) then Failed(hist)
         else Body(last, Codes(lens[..nlen], lens[nlen..nlen + ndist], m), hist, bs, w)
  {
    hide Rejected, Refused, Body;
    var all := lens[..nlen + ndist];
    assert all[..nlen] == lens[..nlen] && all[nlen..] == lens[nlen..nlen + ndist];
  }

  lemma NoLens(m: nat, nlen: nat, ndist: nat)
    ensures FromLens(Bad, m, nlen, ndist) == Bad
  {
  }

  /** One symbol of the bit length code and its extra bits were taken off `bs`. */
  ghost predicate TookItem(blens: seq<nat>, m: nat, bs: seq<bool>, bs2: seq<bool>, val: nat, v: nat)
  {
    match NextSymbol(blens, m, bs)
    case Sym(s) => s == val <= 18 && blens[s] + ExtraBits(s) <= |bs| && v == Value(bs[blens[s]..][..ExtraBits(s)])
      && bs2 == bs[blens[s]..][ExtraBits(s)..]
    case Invalid => val == 0 && v == 0 && 1 <= |bs| && bs2 == bs[1..]
    case NeedMore => false
  }

  lemma LensTaken(blens: seq<nat>, m: nat, t: seq<Entry>, root: nat, bs: seq<bool>, bs2: seq<bool>, future: seq<bool>,
                  have: seq<nat>, limit: nat, val: nat, v: nat)
    requires TableFor(CODES, blens, m, t, root) && TookItem(blens, m, bs, bs2, val, v) && |have| < limit
    ensures var r := Apply(have, Item(val, v), limit);
      ReadLens(blens, m, bs + future, have, limit) == if r.BadRepeat? then Bad
        else ReadLens(blens, m, bs2 + future, r.have, limit)
  {
    hide TableFor, NextSymbol, Value;
    NextStable(CODES, blens, m, t, root, bs, future);
    match NextSymbol(blens, m, bs)
    case Sym(s) =>
      assert (bs + future)[blens[s]..] == bs[blens[s]..] + future;
      FieldAhead(bs[blens[s]..], future, ExtraBits(s));
    case Invalid =>
      assert (bs + future)[1..] == bs2 + future;
  }

  lemma CodesEntry(blens: seq<nat>, m: nat, t: seq<Entry>, root: nat, bs: seq<bool>)
    requires TableFor(CODES, blens, m, t, root) && LensBounded(blens, root) && |blens| == 19
    ensures var here := t[Peek(bs, root)];
      here.bits <= |bs| ==> Lookup(t, root, bs) == (here, here.bits)
  {
    RootLink(CODES, blens, m, t, root, bs);
  }

  /** The entry found tells how many bits the symbol takes, however many more there are. */
  lemma ItemOf(blens: seq<nat>, m: nat, t: seq<Entry>, root: nat, held: seq<bool>, more: seq<bool>, here: Entry)
    requires TableFor(CODES, blens, m, t, root) && |blens| == 19 && LensBounded(blens, 7)
    requires Lookup(t, root, held) == (here, here.bits) && here.bits <= |held|
    ensures here.bits <= 7 && ExtraBits(here.val) <= 7
    ensures OneItem(blens, m, held + more) <==> here.bits + ExtraBits(here.val) <= |held + more|
    ensures here.bits + ExtraBits(here.val) <= |held + more| ==>
      var bs := (held + more)[here.bits..];
      TookItem(blens, m, held + more, bs[ExtraBits(here.val)..], here.val, Value(bs[..ExtraBits(here.val)]))
  {
    hide TableFor, NextSymbol, Lookup;
    TableReads(CODES, blens, m, t, root, held);
    NextStable(CODES, blens, m, t, root, held, more);
  }

  lemma NoItem(blens: seq<nat>, m: nat, bs: seq<bool>)
    requires NextSymbol(blens, m, bs).NeedMore?
    ensures !OneItem(blens, m, bs)
  {
  }

  /** The next symbol and its extra bits, or the end of the input before them. */
  method NextItem(r: BitReader, t: seq<Entry>, root: nat, ghost blens: seq<nat>, ghost m: nat)
    returns (ok: bool, val: nat, v: nat)
    requires r.Valid() && TableFor(CODES, blens, m, t, root) && LensBounded(blens, root) && |blens| == 19
      && LensBounded(blens, 7) && 1 <= m <= 15
    requires r.bits < 8 || (r.bits < 22 && !OneItem(blens, m, r.Held()))
    modifies r
    ensures r.Valid() && r.input == old(r.input)
    ensures ok ==> TookItem(blens, m, old(r.Ahead()), r.Ahead(), val, v) && r.bits < 8
    ensures |r.Ahead()| <= |old(r.Ahead())|
    ensures !ok ==> r.next == |r.input| && r.Ahead() == old(r.Ahead()) && r.bits < 22 && !OneItem(blens, m, r.Held())
  {
    hide TableFor, NextSymbol, Value, Pow2, BytesToBits, ToBits, OneItem, Peek, Lookup, Took, ExtraBits, TookItem,
         LensBounded;
    ghost var b0, h0, bs := r.bits, r.Held(), r.Ahead();
    var here;
    ok, here := RootEntry(r, t, root, CODES, blens, m);
    val, v := here.val, 0;
    ghost var held := r.Held();
    if !ok {
      FewBits(CODES, blens, m, t, root, held);
      NoItem(blens, m, held);
      return;
    }
    CodesEntry(blens, m, t, root, held);
    TakeSymbol(CODES, blens, m, t, root, held, [], b0, here, here.bits);
    ItemOf(blens, m, t, root, held, [], here);
    assert held + [] == held && (|held| == b0 ==> held == h0);
    var n := here.bits + ExtraBits(here.val);
    ok := r.NeedBits(n);
    if !ok {
      r.NothingLeft();
      ItemOf(blens, m, t, root, held, bs[|held|..], here);
      assert held + bs[|held|..] == r.Held();
      return;
    }
    ItemOf(blens, m, t, root, held, bs[|held|..], here);
    assert held + bs[|held|..] == bs;
    r.DropBits(here.bits);
    v := r.Take(ExtraBits(here.val));
  }

  lemma OrderComplete(bs: seq<bool>, blens: seq<nat>, ncode: nat)
    requires ncode <= 19 == |blens|
    ensures ReadOrder(bs, blens, ncode, ncode) == Ok(blens, bs)
  {
  }

  lemma Three(bs: seq<bool>)
    requires |bs| >= 3
    ensures Value(bs[..3]) < 8
  {
    ValueBound(bs[..3]);
    assert Pow2(3) == 8;
  }

  method CopyInput(out: array<Byte>, put: nat, input: seq<Byte>, from: nat, n: nat)
    requires put + n <= out.Length && from + n <= |input|
    modifies out
    ensures out[..put + n] == old(out[..put]) + input[from..from + n]
  {
    for k := 0 to n
      invariant out[..put + k] == old(out[..put]) + input[from..from + k]
    {
      out[put + k] := input[from + k];
    }
  }

  /** A base with the value of its extra bits added, if they are there. */
  method AddExtra(r: BitReader, base: nat, n: nat, ghost future: seq<bool>) returns (ok: bool, v: nat)
    requires r.Valid()
    modifies r
    ensures r.Valid() && r.input == old(r.input)
    ensures !ok ==> v == base && r.next == |r.input| && r.bits < n && r.Ahead() == old(r.Ahead())
    ensures ok ==> base <= v < base + Pow2(n) && Field(old(r.Ahead()) + future, n) == Ok(v - base, r.Ahead() + future)
    ensures ok ==> |r.Ahead()| <= |old(r.Ahead())| && (old(r.bits) < 8 || old(r.bits) < n ==> r.bits < 8)
  {
    hide Value, ToBits, BytesToBits, Pow2, BitReader.Held;
    ghost var bs := r.Ahead();
    ok, v := true, base;
    NoPower();
    if n != 0 {
      ok := r.NeedBits(n);
      if !ok { return; }
      var e := r.Bits(n);
      ValueBound(bs[..n]);
      v := v + e;
      r.DropBits(n);
    }
    FieldAhead(bs, future, n);
  }

  method TakeSizes(r: BitReader) returns (nlen: nat, ndist: nat, ncode: nat)
    requires r.Valid() && r.bits >= 14
    modifies r
    ensures r.Valid() && r.input == old(r.input) && r.next == old(r.next) && r.bits == old(r.bits) - 14
    ensures var bs := old(r.Ahead());
      |bs| >= 14 && nlen == Value(bs[..5]) + 257 && ndist == Value(bs[5..][..5]) + 1
        && ncode == Value(bs[10..][..4]) + 4 && r.Ahead() == bs[14..]
  {
    hide Value, ToBits, BytesToBits, Pow2;
    ghost var bs := r.Ahead();
    var v := r.Take(5);
    nlen := v + 257;
    v := r.Take(5);
    ndist := v + 1;
    assert bs[5..][5..] == bs[10..];
    v := r.Take(4);
    ncode := v + 4;
    assert bs[10..][4..] == bs[14..];
  }

  lemma NoTrees(last: bool, hist: seq<Byte>, m: nat, w: nat)
    ensures WithTrees(last, hist, Bad, m, w) == Failed(hist)
  {
  }

  lemma HeaderFields(bs: seq<bool>, future: seq<bool>, m: nat)
    requires |bs| >= 14
    ensures var nlen, ndist, ncode := Value(bs[..5]) + 257, Value(bs[5..][..5]) + 1, Value(bs[10..][..4]) + 4;
      && ncode <= 19
      && ReadHeader(bs + future, m) == if nlen > 286 || ndist > 30 then Bad
           else FromOrder(ReadOrder(bs[14..] + future, seq(19, _ => 0), 0, ncode), m, nlen, ndist)
  {
    hide Value, ReadOrder, ReadLens, Rejected;
    FieldAhead(bs, future, 5);
    FieldAhead(bs[5..], future, 5);
    FieldAhead(bs[10..], future, 4);
    assert bs[5..][5..] == bs[10..] && bs[10..][4..] == bs[14..];
    ValueBound(bs[10..][..4]);
    assert Pow2(4) == 16;
  }

  lemma NoBytes(last: bool, hist: seq<Byte>, bs: seq<bool>, m: nat, w: nat)
    ensures Bytes(last, 0, hist, bs, m, w) == Inflate(last, hist, bs, m, w)
  {
  }

  lemma {:induction false} BytesSkip(last: bool, n: nat, hist: seq<Byte>, bytes: seq<Byte>, bs: seq<bool>, m: nat,
                                     w: nat)
    requires |bytes| <= n
    ensures Bytes(last, n, hist, BytesToBits(bytes) + bs, m, w) == Bytes(last, n - |bytes|, hist + bytes, bs, m, w)
    decreases bytes
  {
    hide Value, ToBits, Pow2, Inflate;
    if bytes == [] {
      assert BytesToBits(bytes) + bs == bs && hist + bytes == hist;
    } else {
      var tail := BytesToBits(bytes[1..]) + bs;
      var all := BytesToBits(bytes) + bs;
      assert all == ToBits(bytes[0], 8) + tail;
      Byte256();
      FieldSent(bytes[0], 8, tail);
      assert Value(all[..8]) == bytes[0] && all[8..] == tail;
      BytesSkip(last, n - 1, hist + [bytes[0]], bytes[1..], bs, m, w);
      assert hist + [bytes[0]] + bytes[1..] == hist + bytes;
    }
  }

  /** Skipping to a byte boundary twice is skipping once. */
  lemma StoredSame(last: bool, hist: seq<Byte>, bs: seq<bool>, a: seq<bool>, m: nat, w: nat)
    requires a == Inflated.Aligned(bs)
    ensures StoredBlock(last, hist, bs, m, w) == StoredBlock(last, hist, a, m, w) && |a| % 8 == 0
  {
    hide WholeBlock, Inflated.Aligned;
    AlignedTwice(bs);
  }

  /** BYTEBITS and NEEDBITS(32): at a byte boundary, exactly the two length words. */
  method AlignWords(r: BitReader, ghost last: bool, ghost hist: seq<Byte>, ghost future: seq<bool>, ghost m: nat,
                    ghost w: nat)
    returns (ok: bool)
    requires r.Valid() && |future| % 8 == 0 && (r.bits < 8 || (r.bits % 8 == 0 && r.bits < 32))
    modifies r
    ensures r.Valid() && r.input == old(r.input) && |r.Ahead()| <= |old(r.Ahead())| && |r.Ahead() + future| % 8 == 0
    ensures StoredBlock(last, hist, r.Ahead() + future, m, w) == old(StoredBlock(last, hist, r.Ahead() + future, m, w))
    ensures if ok then r.bits == 32 else r.next == |r.input| && r.bits % 8 == 0 && r.bits < 32
  {
    hide BytesToBits, ToBits, Pow2, StoredBlock, Inflated.Aligned;
    ghost var bs := r.Ahead();
    ByteEnd(r.Held(), BytesToBits(r.input[r.next..]), future);
    WholeBytes(r.bits);
    r.DropBits(r.bits % 8);
    StoredSame(last, hist, bs + future, r.Ahead() + future, m, w);
    ok := r.NeedBits(32);
  }

  lemma WholeBytes(n: nat)
    ensures (n - n % 8) % 8 == 0
  {
  }

  lemma StoredTaken(last: bool, hist: seq<Byte>, a: seq<bool>, future: seq<bool>, m: nat, w: nat)
    requires |a| >= 32 && |a + future| % 8 == 0
    ensures StoredBlock(last, hist, a + future, m, w) ==
      if Value(a[..16]) + Value(a[..32]) / 0x1_0000 != 0xffff then Failed(hist)
      else Bytes(last, Value(a[..16]), hist, a[32..] + future, m, w)
  {
    hide Value, Bytes;
    ValueSplit(a[..32], 16);
    Byte256();
    assert a[..32][16..] == (a + future)[16..32] && (a + future)[..16] == a[..16]
      && (a + future)[32..] == a[32..] + future;
    Even(a + future);
  }

  lemma Even(bs: seq<bool>)
    requires |bs| % 8 == 0
    ensures Inflated.Aligned(bs) == bs
  {
  }

  /** What a block of the given kind will yield. */
  ghost function OfKind(last: bool, kind: nat, hist: seq<Byte>, bs: seq<bool>, m: nat, w: nat): Outcome
  {
    if kind == 0 then StoredBlock(last, hist, bs, m, w)
    else if kind == 1 then Body(last, FixedCodes(m), hist, bs, w)
    else if kind == 2 then WithTrees(last, hist, ReadHeader(bs, m), m, w)
    else Failed(hist)
  }

  lemma InflateKind(hist: seq<Byte>, bs: seq<bool>, m: nat, w: nat)
    requires |bs| >= 3
    ensures var v := Value(bs[..3]); Inflate(false, hist, bs, m, w) == OfKind(v % 2 == 1, v / 2, hist, bs[3..], m, w)
  {
  }

  lemma FixedParts(m: nat)
    ensures FixedCodes(m).llens == StaticLens(288) && FixedCodes(m).dlens == Fives(32) && FixedCodes(m).m == m
  {
  }

  /** Aligning the accumulator aligns the stream. */
  lemma ByteEnd(held: seq<bool>, bytes: seq<bool>, future: seq<bool>)
    requires |bytes| % 8 == 0 && |future| % 8 == 0
    ensures Inflated.Aligned(held + bytes + future) == (held + bytes)[|held| % 8..] + future
      && |held + bytes + future| % 8 == |held| % 8
  {
    var skip := |held| % 8;
    WholeRest(|held|, |bytes| / 8, |future| / 8);
    assert |held + bytes + future| == |held| + 8 * (|bytes| / 8) + 8 * (|future| / 8);
    assert (held + bytes + future)[skip..] == (held + bytes)[skip..] + future;
  }

  lemma WholeRest(n: nat, a: nat, b: nat)
    ensures (n + 8 * a + 8 * b) % 8 == n % 8
  {
  }

  lemma TypeBits(bs: seq<bool>, future: seq<bool>)
    requires |bs| >= 3
    ensures (bs + future)[..3] == bs[..3] && (bs + future)[3..] == bs[3..] + future
    ensures Value(bs[..3]) % 2 == Value(bs[..1]) && Value(bs[..3]) / 2 == Value(bs[1..][..2]) < 4 && Value(bs[..1]) < 2
  {
    FieldAhead(bs, future, 3);
    var x := bs[..3];
    assert x[1..] == bs[1..][..2] && bs[..1] == [bs[0]] && [bs[0]][1..] == [];
    ValueBound(bs[1..][..2]);
    assert Pow2(2) == 4;
  }

  /** fixedtables: the decoding tables of the static codes. */
  method FixedTables(m: nat) returns (lt: seq<Entry>, lbits: nat, dt: seq<Entry>, dbits: nat)
    requires 9 <= m <= MAXBITS
    ensures TableFor(LENS, StaticLens(288), m, lt, lbits) && TableFor(DISTS, Fives(32), m, dt, dbits)
  {
    hide TableFor, Kraft, Pow2, StaticLens, Fives;
    StaticTrees.StaticComplete(m);
    SmallPowers();
    var codes := new Entry[ENOUGH_LENS + ENOUGH_DISTS];
    var ret, used;
    ret, lbits, used := Build(LENS, StaticLens(288), codes, 0, 9, m);
    lt := codes[0..used];
    ret, dbits, used := Build(DISTS, Fives(32), codes, 0, 5, m);
    dt := codes[0..used];
  }

  lemma NoPower()
    ensures Pow2(0) == 1
  {
  }

  lemma NoneCopied(h: seq<Byte>, dist: nat)
    requires 1 <= dist <= |h|
    ensures Copied(h, dist, 0) == h
  {
  }
}
