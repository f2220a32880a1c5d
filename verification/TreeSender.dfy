/** trees.c: counting and sending the run-length coded code lengths of the trees, and the whole header. */
module TreeSender {
  import opened Bits
  import opened BitWriter
  import opened Canonical
  import opened CodeLengths
  import opened Header
  import opened Blocks
  import opened BlockEncoder

  const GUARD := 0xffff

  /** Frequencies after counting the symbols of `items`. */
  ghost predicate Tallied(freq: seq<nat>, before: seq<nat>, items: seq<Item>)
  {
    |freq| == |before| && forall s :: 0 <= s < |freq| ==> freq[s] == before[s] + Uses(items, s)
  }

  lemma {:induction false} UsesConcat(a: seq<Item>, b: seq<Item>, s: nat)
    ensures Uses(a + b, s) == Uses(a, s) + Uses(b, s)
  {
    if b == [] {
      assert a + b == a;
    } else {
      assert (a + b)[..|a + b| - 1] == a + b[..|b| - 1];
      UsesConcat(a, b[..|b| - 1], s);
    }
  }

  lemma TalliedConcat(f0: seq<nat>, f1: seq<nat>, f2: seq<nat>, a: seq<Item>, b: seq<Item>)
    requires Tallied(f1, f0, a) && Tallied(f2, f1, b)
    ensures Tallied(f2, f0, a + b)
  {
    forall s | 0 <= s < |f2| ensures f2[s] == f0[s] + Uses(a + b, s) { UsesConcat(a, b, s); }
  }

  lemma {:induction false} UsesRepeated(it: Item, n: nat, s: nat)
    ensures Uses(Items(it, n), s) == if it.sym == s then n else 0
  {
    if n > 0 {
      assert Items(it, n)[..n - 1] == Items(it, n - 1);
      UsesRepeated(it, n - 1, s);
    }
  }

  lemma UsesOne(it: Item, s: nat)
    ensures Uses([it], s) == if it.sym == s then 1 else 0
  {
    assert [it][..0] == [];
  }

  lemma UsesTwo(a: Item, b: Item, s: nat)
    ensures Uses([a, b], s) == (if a.sym == s then 1 else 0) + if b.sym == s then 1 else 0
  {
    assert [a, b] == [a] + [b];
    UsesConcat([a], [b], s);
    UsesOne(a, s);
    UsesOne(b, s);
  }

  /** Count the symbols of one run. */
  method TallyRun(freq: array<nat>, prev: int, cur: nat, count: nat)
    requires freq.Length >= 19 && cur < 16 && 1 <= count <= MaxCount(prev, cur)
    modifies freq
    ensures Tallied(freq[..], old(freq[..]), Run(prev, cur, count))
  {
    hide Uses;
    ghost var items := Run(prev, cur, count);
    if count < MinCount(prev, cur) {
      freq[cur] := freq[cur] + count;
      forall s: nat ensures Uses(items, s) == if cur == s then count else 0 { UsesRepeated(Item(cur, 0), count, s); }
    } else if cur != 0 {
      if cur != prev { freq[cur] := freq[cur] + 1; }
      freq[REP_3_6] := freq[REP_3_6] + 1;
      if cur != prev {
        forall s: nat ensures Uses(items, s) == (if cur == s then 1 else 0) + if REP_3_6 == s then 1 else 0 {
          UsesTwo(items[0], items[1], s);
        }
      } else {
        forall s: nat ensures Uses(items, s) == if REP_3_6 == s then 1 else 0 { UsesOne(items[0], s); }
      }
    } else {
      var sym := if count <= 10 then REPZ_3_10 else REPZ_11_138;
      freq[sym] := freq[sym] + 1;
      forall s: nat ensures Uses(items, s) == if sym == s then 1 else 0 { UsesOne(items[0], s); }
    }
  }

  /** A step of the scan over `lens` that ends a run sends it and starts the next. */
  lemma RunEnds(lens: seq<nat>, n: nat, prev: int, count: nat, done: seq<Item>)
    requires n < |lens| && count < MaxCount(prev, lens[n])
    requires !(count + 1 < MaxCount(prev, lens[n]) && n + 1 < |lens| && lens[n + 1] == lens[n])
    ensures done + Runs(lens, n, prev, count)
         == (done + Run(prev, lens[n], count + 1)) + Runs(lens, n + 1, lens[n], 0)
  {
  }

  /** Limits for the run of `next` that follows a length `cur`. */
  method Limits(cur: int, next: nat) returns (maxCount: nat, minCount: nat)
    ensures maxCount == MaxCount(cur, next) && minCount == MinCount(cur, next)
  {
    if next == 0 {
      maxCount, minCount := 138, 3;
    } else if cur == next {
      maxCount, minCount := 6, 3;
    } else {
      maxCount, minCount := 7, 4;
    }
  }

  /** Count the symbols that sending the tree will need; sets the guard after the last code. */
  method ScanTree(dl: array<nat>, maxCode: nat, freq: array<nat>)
    requires maxCode + 1 < dl.Length && dl != freq && freq.Length >= 19
    requires forall i :: 0 <= i <= maxCode ==> dl[i] < 16
    modifies dl, freq
    ensures dl[..] == old(dl[..])[maxCode + 1 := GUARD]
    ensures Tallied(freq[..], old(freq[..]), TreeItems(old(dl[..maxCode + 1])))
  {
    hide Run, Uses, Tallied;
    ghost var lens, f0, done := dl[..maxCode + 1], freq[..], [];
    var prevlen: int := -1;
    var nextlen, count := dl[0], 0;
    var maxCount, minCount := Limits(prevlen, nextlen);
    dl[maxCode + 1] := GUARD;
    TalliedNone(freq[..]);
    var n := 0;
    while n <= maxCode
      invariant 0 <= n <= maxCode + 1 && dl[..] == old(dl[..])[maxCode + 1 := GUARD]
      invariant nextlen == dl[n] && maxCount == MaxCount(prevlen, nextlen) && minCount == MinCount(prevlen, nextlen)
      invariant count < maxCount && (n == maxCode + 1 ==> count == 0)
      invariant TreeItems(lens) == done + Runs(lens, n, prevlen, count)
      invariant freq.Length >= 19 && Tallied(freq[..], f0, done)
    {
      var curlen := nextlen;
      nextlen := dl[n + 1];
      assert lens[n] == curlen && (n < maxCode ==> lens[n + 1] == nextlen);
      if count + 1 < maxCount && curlen == nextlen {
        count := count + 1;
      } else {
        RunEnds(lens, n, prevlen, count, done);
        ghost var f1 := freq[..];
        TallyRun(freq, prevlen, curlen, count + 1);
        TalliedConcat(f0, f1, freq[..], done, Run(prevlen, curlen, count + 1));
        done := done + Run(prevlen, curlen, count + 1);
        count, prevlen := 0, curlen;
        maxCount, minCount := Limits(curlen, nextlen);
      }
      n := n + 1;
    }
    assert done + [] == done;
  }

  lemma TalliedNone(f: seq<nat>)
    ensures Tallied(f, f, [])
  {
  }

  lemma EncodeOne(blens: seq<nat>, it: Item)
    ensures EncodeItems(blens, [it]) == ItemBits(blens, it)
  {
    assert [it][..0] == [];
    assert [] + ItemBits(blens, it) == ItemBits(blens, it);
  }

  /** Send one symbol with its extra bits. */
  method SendItem(w: BitWriter, t: Tree, sym: nat, extra: nat)
    requires w.Valid() && t.Valid() && HasCode(t.Lens(), sym) && ItemOk(Item(sym, extra))
    modifies w
    ensures w.Valid() && w.base == old(w.base) && w.Sent() == old(w.Sent()) + EncodeItems(t.Lens(), [Item(sym, extra)])
  {
    hide EncodeItems, ToBits, CodeBits;
    EncodeOne(t.Lens(), Item(sym, extra));
    ItemExtraFits(Item(sym, extra));
    ghost var sent := w.Sent();
    SendCode(w, t, sym);
    NoExtra(extra);
    if ExtraBits(sym) != 0 { w.SendBits(extra, ExtraBits(sym)); }
    assert w.Sent() == sent + ItemBits(t.Lens(), Item(sym, extra));
  }

  lemma NoExtra(extra: nat)
    ensures ToBits(extra, 0) == []
  {
  }

  /** Send `count` times the same length. */
  method SendLengths(w: BitWriter, t: Tree, cur: nat, count: nat)
    requires w.Valid() && t.Valid() && cur < 16 && count >= 1 && HasCode(t.Lens(), cur)
    modifies w
    ensures w.Valid() && w.base == old(w.base)
      && w.Sent() == old(w.Sent()) + EncodeItems(t.Lens(), Items(Item(cur, 0), count))
  {
    hide TreeCoded, EncodeItems;
    ghost var lens := t.Lens();
    EncodeNone(lens);
    assert Items(Item(cur, 0), 0) == [];
    var left := count;
    while left != 0
      invariant 0 <= left <= count && w.Valid() && w.base == old(w.base)
      invariant w.Sent() == old(w.Sent()) + EncodeItems(lens, Items(Item(cur, 0), count - left))
    {
      EncodeConcat(lens, Items(Item(cur, 0), count - left), [Item(cur, 0)]);
      assert Items(Item(cur, 0), count - left) + [Item(cur, 0)] == Items(Item(cur, 0), count - left + 1);
      SendItem(w, t, cur, 0);
      left := left - 1;
    }
  }

  /** The bit length tree has a code for each symbol of `items`. */
  ghost predicate Coverable(blens: seq<nat>, items: seq<Item>)
  {
    forall i :: 0 <= i < |items| ==> HasCode(blens, items[i].sym)
  }

  /** Send the symbols of one run. */
  method SendRun(w: BitWriter, t: Tree, prev: int, cur: nat, count: nat)
    requires w.Valid() && t.Valid() && cur < 16 && 1 <= count <= MaxCount(prev, cur)
    requires Coverable(t.Lens(), Run(prev, cur, count))
    modifies w
    ensures w.Valid() && w.base == old(w.base)
      && w.Sent() == old(w.Sent()) + EncodeItems(t.Lens(), Run(prev, cur, count))
  {
    hide TreeCoded, EncodeItems;
    ghost var items, lens := Run(prev, cur, count), t.Lens();
    if count < MinCount(prev, cur) {
      assert HasCode(lens, items[0].sym);
      SendLengths(w, t, cur, count);
    } else if cur != 0 {
      var left := count;
      if cur != prev {
        assert HasCode(lens, items[0].sym) && HasCode(lens, items[1].sym);
        EncodeConcat(lens, [items[0]], [items[1]]);
        assert items == [items[0]] + [items[1]];
        SendItem(w, t, cur, 0);
        left := left - 1;
      } else {
        assert HasCode(lens, items[0].sym);
      }
      SendItem(w, t, REP_3_6, left - 3);
    } else if count <= 10 {
      assert HasCode(lens, items[0].sym);
      SendItem(w, t, REPZ_3_10, count - 3);
    } else {
      assert HasCode(lens, items[0].sym);
      SendItem(w, t, REPZ_11_138, count - 11);
    }
  }

  /** Send the code lengths of a tree whose guard is set. */
  method SendTree(w: BitWriter, t: Tree, dl: array<nat>, maxCode: nat)
    requires w.Valid() && t.Valid() && maxCode + 1 < dl.Length && dl[maxCode + 1] == GUARD
    requires forall i :: 0 <= i <= maxCode ==> dl[i] < 16
    requires Coverable(t.Lens(), TreeItems(dl[..maxCode + 1]))
    modifies w
    ensures w.Valid() && w.base == old(w.base)
      && w.Sent() == old(w.Sent()) + EncodeItems(t.Lens(), TreeItems(dl[..maxCode + 1]))
  {
    hide Run, TreeCoded, EncodeItems, Coverable, BitWriter.Sent, BitWriter.Valid;
    ghost var lens, done, blens := dl[..maxCode + 1], [], t.Lens();
    EncodeNone(blens);
    var prevlen: int := -1;
    var nextlen, count := dl[0], 0;
    var maxCount, minCount := Limits(prevlen, nextlen);
    var n := 0;
    while n <= maxCode
      invariant 0 <= n <= maxCode + 1 && w.Valid() && w.base == old(w.base)
      invariant nextlen == dl[n] && maxCount == MaxCount(prevlen, nextlen) && minCount == MinCount(prevlen, nextlen)
      invariant count < maxCount && (n == maxCode + 1 ==> count == 0)
      invariant TreeItems(lens) == done + Runs(lens, n, prevlen, count)
      invariant w.Sent() == old(w.Sent()) + EncodeItems(blens, done)
    {
      var curlen := nextlen;
      nextlen := dl[n + 1];
      assert lens[n] == curlen && (n < maxCode ==> lens[n + 1] == nextlen);
      if count + 1 < maxCount && curlen == nextlen {
        count := count + 1;
      } else {
        RunEnds(lens, n, prevlen, count, done);
        ghost var run := Run(prevlen, curlen, count + 1);
        EncodeConcat(blens, done, run);
        CoverPart(blens, done, run, Runs(lens, n + 1, curlen, 0));
        SendRun(w, t, prevlen, curlen, count + 1);
        done := done + run;
        count, prevlen := 0, curlen;
        maxCount, minCount := Limits(curlen, nextlen);
      }
      n := n + 1;
    }
    assert done + [] == done;
  }

  lemma CoverPart(blens: seq<nat>, a: seq<Item>, b: seq<Item>, c: seq<Item>)
    requires Coverable(blens, (a + b) + c)
    ensures Coverable(blens, b)
  {
    var all := (a + b) + c;
    forall i | 0 <= i < |b| ensures HasCode(blens, b[i].sym) { assert b[i] == all[|a| + i]; }
  }

  /** Index in the sending order of the last bit length code in use; at least four are sent. */
  method LastBlIndex(dl: array<nat>) returns (maxBlindex: nat)
    requires dl.Length >= 19
    ensures 2 <= maxBlindex < 19 && |BL_ORDER| == 19
    ensures forall i :: maxBlindex < i < 19 ==> BL_ORDER[i] < 19 && dl[BL_ORDER[i]] == 0
    ensures maxBlindex == 2 <==> forall s :: 0 <= s < 16 ==> dl[s] == 0
  {
    OrderIsPermutation();
    maxBlindex := 18;
    while maxBlindex >= 3 && dl[BL_ORDER[maxBlindex]] == 0
      invariant 2 <= maxBlindex < 19
      invariant forall i :: maxBlindex < i < 19 ==> dl[BL_ORDER[i]] == 0
    {
      maxBlindex := maxBlindex - 1;
    }
    LengthsAreLate();
    if maxBlindex == 2 {
      forall s | 0 <= s < 16 ensures dl[s] == 0 { assert dl[BL_ORDER[BL_RANK[s]]] == 0; }
    }
  }

  lemma LengthsAreLate()
    ensures forall s :: 0 <= s < 16 ==> BL_RANK[s] >= 3
    ensures forall i :: 3 <= i < 19 ==> BL_ORDER[i] < 16
  {
  }

  /** Send the header: the counts, the lengths of the bit length codes, and the two trees. */
  method SendAllTrees(w: BitWriter, lt: Tree, dt: Tree, blt: Tree, blcodes: nat)
    requires w.Valid() && blt.Valid() && blt.codes == 19
    requires 257 <= lt.codes <= 286 && 1 <= dt.codes <= 30 && 4 <= blcodes <= 19
    requires lt.codes < lt.dl.Length && lt.dl[lt.codes] == GUARD && dt.codes < dt.dl.Length && dt.dl[dt.codes] == GUARD
    requires forall i :: 0 <= i < lt.codes ==> lt.dl[i] < 16
    requires forall i :: 0 <= i < dt.codes ==> dt.dl[i] < 16
    requires forall i :: 0 <= i < 19 ==> blt.dl[i] < 8
    requires Coverable(blt.Lens(), TreeItems(lt.Lens()) + TreeItems(dt.Lens()))
    modifies w
    ensures w.Valid() && w.base == old(w.base)
      && w.Sent() == old(w.Sent()) + HeaderBits(lt.Lens(), dt.Lens(), blt.Lens(), blcodes)
  {
    hide TreeCoded, EncodeItems, TreeItems, ToBits, OrderBits;
    ghost var s0, blens, li, di := w.Sent(), blt.Lens(), TreeItems(lt.Lens()), TreeItems(dt.Lens());
    CoverSplit(blens, li, di);
    HeaderFieldsFit(lt.codes, dt.codes, blcodes);
    w.SendBits(lt.codes - 257, 5);
    w.SendBits(dt.codes - 1, 5);
    w.SendBits(blcodes - 4, 4);
    SendBlLengths(w, blt, blcodes);
    SendTree(w, blt, lt.dl, lt.codes - 1);
    SendTree(w, blt, dt.dl, dt.codes - 1);
    EncodeConcat(blens, li, di);
    HeaderAssoc(s0, ToBits(lt.codes - 257, 5), ToBits(dt.codes - 1, 5), ToBits(blcodes - 4, 4),
                OrderBits(blens, blcodes), EncodeItems(blens, li), EncodeItems(blens, di));
  }

  lemma HeaderAssoc(s: seq<bool>, a: seq<bool>, b: seq<bool>, c: seq<bool>, d: seq<bool>, e: seq<bool>, f: seq<bool>)
    ensures s + a + b + c + d + e + f == s + (a + (b + (c + (d + (e + f)))))
  {
  }

  lemma HeaderFieldsFit(l: nat, d: nat, b: nat)
    requires 257 <= l <= 286 && 1 <= d <= 30 && 4 <= b <= 19
    ensures l - 257 < Pow2(5) && d - 1 < Pow2(5) && b - 4 < Pow2(4)
  {
    assert Pow2(5) == 32 && Pow2(4) == 16;
  }

  lemma CoverSplit(blens: seq<nat>, a: seq<Item>, b: seq<Item>)
    requires Coverable(blens, a + b)
    ensures Coverable(blens, a) && Coverable(blens, b)
  {
    assert forall i :: 0 <= i < |a| ==> a[i] == (a + b)[i];
    assert forall i :: 0 <= i < |b| ==> b[i] == (a + b)[|a| + i];
  }

  /** Send the lengths of the first `blcodes` bit length codes, in the sending order. */
  method SendBlLengths(w: BitWriter, blt: Tree, blcodes: nat)
    requires w.Valid() && blt.codes == 19 <= blt.dl.Length && blcodes <= 19
    requires forall i :: 0 <= i < 19 ==> blt.dl[i] < 8
    modifies w
    ensures w.Valid() && w.base == old(w.base) && w.Sent() == old(w.Sent()) + OrderBits(blt.Lens(), blcodes)
  {
    hide ToBits, BytesToBits;
    OrderIsPermutation();
    assert Pow2(3) == 8;
    for rank := 0 to blcodes
      invariant w.Valid() && w.base == old(w.base) && w.Sent() == old(w.Sent()) + OrderBits(blt.Lens(), rank)
    {
      w.SendBits(blt.dl[BL_ORDER[rank]], 3);
    }
  }
}
